# A verified model of the matching engine

This project models the limit-order matching engine under `src/` and proves its properties in
Dafny. `dafny verify dfyconfig.toml` checks everything.

## What is modelled

**The order book of one contract.** `BinaryHeap.dfy` is the growable array heap with its holes
moving up and down. `ContractEngine.dfy` is the engine that works on two such heaps: alphas cut
into TWAP slices, lazy injection of due slices, the six order types, continuous matching and the
position and income totals, all updated in place. `ContractSpec.dfy` says what each operation
means on two lists in strict priority order, and every method is proved to do exactly that.
Orders that the comparators cannot tell apart share one entry of such a list (`PriorityBook.dfy`),
so the refinement needs no assumption about ties: which of several tied orders a heap happens to
pop shows neither in the book nor in the account nor on the tape, where consecutive fills between the
same two parties form one line (only how often a negative price is rounded can depend on it). `Fills.dfy` follows the single fills: without ties the engine makes
exactly those of the sorted book, and `NoTies.dfy` shows that ties need a shared time stamp.
`Matching.dfy`, `OrderTypes.dfy`, `Accounting.dfy`, `Ledger.dfy`, `MakerPrice.dfy`, `PriceBand.dfy` and
`TwapSchedule.dfy` hold the theorems about the operations and about whole runs, `SlicePrices.dfy` and
`Origins.dfy` say what is recorded and where every order comes from, and `Shortfalls.dfy` concrete runs on which the rules of the exchange are broken.

**The ring of buffers.** `Ring.dfy` is the protocol between the reader thread and the matching
threads, as interleaved steps for any number of workers and any power-of-two ring. Each step makes
at most one access to a finish mask, and the reader fills a buffer, and a worker reads it, in several steps.
`RingFeeding.dfy` follows the contents through the ring and `RingProgress.dfy` shows that every
run ends. `Records.dfy` cuts files into chunks and records.

**All instruments of a day.** `InstrumentTable.dfy` is the hash index, `TradeEngine.dfy` routes
events to contract objects through it, `InstrumentIds.dfy` and `Outputs.dfy` are about the order
of the output.

Prices are whole ticks of 0.01 and rounding is done in hundredths of a tick; `EpsPrices.dfy` shows
that the floating-point comparators with their tolerance, and the rounding, agree with this on the
tick grid. Integers are unbounded.

## Where the code falls short, and exactly when

- A trade is at the resting order's price if and only if the prices agree or the incoming order is
  the later one, strictly so for a sale (`MakerPrice.MakerPriceIff`). All trades of a run are, if and
  only if every order log meets this with each order it trades with
  (`MakerPrice.MakerPriceOnRunsIff`).
- An order of a taking type carries only an offset as its price, and that can become the trade price.
  All prices of a run are within the day's limits if and only if every taking order has an offset
  within them or comes later than each order it trades with (`PriceBand.BandOnRunsIff`). A sale with
  the time stamp of the buy it takes drives the last price to 0 (`Shortfalls.SharedTimestampLeavesBand`).
- An own fill at a negative price is booked one tick too high, because the rounding cuts off toward
  zero. The reported profit is that of the fills if and only if own sales and purchases at negative
  prices are equally many (`ContractEngines.ContractEngine.GetPNL`). A run of three orders and one
  slice ends one tick short (`Shortfalls.ProfitOffByOneTick`).
- The five-level order reaches six levels if and only if the best opposite price is -1.00 and there
  are six (`Matching.ReachIsFiveLevels`). On the run of `Shortfalls.FiveLevelsAreSix` a buy of this type
  trades at six prices.
- Two resting prices that are merely near each other: the comparators are an order if and only if
  nearness is transitive on the prices (`EpsPrices.StrictWeakOrderIff`); on three prices 0.0000008
  apart they are not (`EpsPrices.NearPricesAreNoOrder`).
- The hash index is stable if and only if no two ids share a residue
  (`InstrumentTable.StableIffDistinctResidues`).
- Workers do what the files say if and only if no order file is empty
  (`RingFeeding.FeedsExactlyIffNonEmpty`).
- The previous-day and alpha files are loaded correctly if and only if they fit into their buffers
  (`Records.LoadedIffItFits`); 4096 bytes hold 204 instruments, fewer than the 256 allowed contracts.
- Recorded slices are in time order if and only if target changes are far enough apart
  (`TwapSchedule.SlicesInTimeOrderIff`).

## Model

| member | source | states |
|---|---|---|
| BinaryHeaps.BinaryHeap.Insert | src/binary_heap.h:34-50 | keeps the heap order and adds exactly the one order, also when the capacity doubles |
| BinaryHeaps.BinaryHeap.Pop | src/binary_heap.h:60-79 | keeps the heap order, removes exactly the top order |
| BinaryHeaps.BinaryHeap.Top | src/binary_heap.h:52-58 | the top is a resting order that no other one precedes |
| BinaryHeaps.BinaryHeap.ReduceTop | src/contract_engine.cpp:143-143 | the in-place volume edit keeps the heap order and replaces only the top order |
| BinaryHeaps.BinaryHeap.Drain | test/heap_function_test.cpp:34-47 | popping to the end gives a permutation of the orders sorted by priority |
| BinaryHeaps.RootIsBest | src/binary_heap.h:52-58 | in a heap-ordered array no slot precedes the root |
| BinaryHeaps.DownStep | src/binary_heap.h:65-75 | moving the hole to the better child keeps all other slots in order and the orders the same |
| BinaryHeaps.UpStep | src/binary_heap.h:44-48 | moving the hole to the father keeps all other slots in order and the orders the same |
| PriorityBook.AddCommutes | src/common.h:115-143 | inserting two orders by priority gives the same list in either sequence |
| PriorityBook.CanonAdd | src/binary_heap.h:34-50 | the priority list of a set of resting orders does not depend on the sequence of insertions |
| PriorityBook.CanonTop | src/binary_heap.h:52-79 | any best resting order has the key of the first entry, and trading part or all of it is the same on heap and list |
| PriorityBook.CanonIsSortedPermutation | src/common.h:115-143 | when no two orders share a key the list is the sorted permutation of the resting orders |
| OrderTypes.PriorityIsKept | src/common.h:115-143 | a resting order is touched only when all that have a better price, or the same price and an earlier time, or the same of both and a smaller type, are used up |
| EpsPrices.StrictWeakOrderIff | src/common.h:38-41 | the comparators are a strict weak order on all orders with prices in a set exactly if nearness is transitive on it |
| EpsPrices.NearPricesAreNoOrder | src/common.h:38-41 | three prices 0.0000008 apart on which they are not |
| EpsPrices.ExactIff | src/common.h:115-143 | they equal the exact price-time-type order exactly if distinct prices differ by more than EPS |
| EpsPrices.TickComparators | src/common.h:115-143 | on whole ticks they are the exact comparators used for the heaps |
| EpsPrices.RoundingOnTicks | src/common.h:46-69 | both rounding functions equal the integer ones on hundredths of a tick, negative values included |
| Orders.EncodingRoundTrip | src/common.h:19-21 | side and type are read back from the packed byte as packed, exactly for types below 8 |
| Matching.SweepPart | src/contract_engine.cpp:149-164 | trading a resting volume in several pieces ends in the same side, position, last price and tape |
| Matching.MatchPart | src/contract_engine.cpp:288-306 | the same for the continuous matching of two heaps |
| Matching.MatchIsSweep | src/contract_engine.cpp:288-306 | matching after an order arrives at an uncrossed book is exactly the sweep of the opposite side by that order; what is left rests and the book is uncrossed again |
| Matching.SweepShape | src/contract_engine.cpp:149-164 | a sweep conserves volume, stops only when it must and leaves a sorted side |
| Matching.SweepVolume | src/contract_engine.cpp:149-164 | an unlimited sweep executes the smaller of the order's volume and the side's total |
| Matching.ReachIsFiveLevels | src/contract_engine.cpp:121-133 | the orders in reach are those of the five best prices, six if the best one is -1.00, and deeper orders are strictly worse |
| OrderTypes.LimitedSweepIsPrefix | src/contract_engine.cpp:288-306 | a limited sweep is the unlimited sweep of the entries its price reaches |
| OrderTypes.RestingTypes | src/contract_engine.cpp:44-111 | a resting order trades with exactly the entries its price reaches, only the unfilled volume rests |
| OrderTypes.OurBestNeverTrades | src/contract_engine.cpp:90-97 | an order at the own side's best price never trades and needs an own side |
| OrderTypes.OppositeBestReachesOneLevel | src/contract_engine.cpp:77-88 | an order at the opposite best price does nothing when that side is empty, and else reaches exactly the entries at that price |
| OrderTypes.TakenVolume | src/contract_engine.cpp:121-147 | taking from the first entries executes the smaller of the order's volume and theirs; deeper entries and the own side are untouched |
| OrderTypes.TakingTypes | src/contract_engine.cpp:121-198 | executed volumes of the three taking types; all-or-nothing fills completely iff the side covers it, then as the immediate type does, and otherwise changes nothing; any other type does nothing |
| OrderTypes.BaseIsQuote | src/contract_engine.cpp:208-228 | the base price on sorted sides is the cheapest sale for a buy and the dearest buy for a sale, else the best own order, else the last price |
| OrderTypes.SliceTakesBestLevel | src/contract_engine.cpp:230-246 | an injected slice that finds an opposite side executes the smaller of its volume and what is offered at the best price |
| ContractEngines.ContractEngine.constructor | src/contract_engine.h:24-46 | empty sides, last price at the previous close, position and target at the previous position |
| ContractEngines.ContractEngine.InsertAlpha | src/contract_engine.cpp:7-26 | records the slices of the target change and nothing else; the engine still follows the run through all its events |
| ContractEngines.ContractEngine.TradeOrder | src/contract_engine.cpp:260-286 | books exactly one fill, at the earlier order's price; tape, position and income, slips of the rounding included, stay what the fills make them |
| ContractEngines.ContractEngine.ProcessTrade | src/contract_engine.cpp:288-306 | on two heaps does what continuous matching does on the sorted sides, without ties with the very same fills, and terminates |
| ContractEngines.ContractEngine.GetCurrentBasePrice | src/contract_engine.cpp:208-228 | on the heaps: some sale has this price and no sale is cheaper, for a buy; the mirror image for a sale; the best own order when the opposite side is empty; the last price when both are; and the same price on the sorted book |
| ContractEngines.ContractEngine.ProcessTwapOrdersIfNecessary | src/contract_engine.cpp:230-257 | injects exactly the due slices at the head of the list; what price each is recorded with is stated by SlicePrices.SlicesAreQuoted |
| ContractEngines.ContractEngine.OnComplete | src/contract_engine.cpp:203-206 | injects all remaining slices; the engine still follows its run |
| ContractEngines.ContractEngine.BestFivePriceNoLeft | src/contract_engine.cpp:121-147 | takes from the entries in reach of the level counter |
| ContractEngines.ContractEngine.ImmediateDealNoLeft | src/contract_engine.cpp:149-164 | takes from the whole opposite side |
| ContractEngines.ContractEngine.AllOrNothing | src/contract_engine.cpp:166-198 | despite popping and re-inserting: the immediate order's result, without ties its very fills, if the side covers the order, else the same orders, income, fills and account as before |
| ContractEngines.ContractEngine.AdmitOrder | src/contract_engine.cpp:47-97 | the admission on the sorted book, whose price and condition PriceBand.LimitOrders and the laws of the copying types spell out |
| ContractEngines.ContractEngine.InsertOrderLog | src/contract_engine.cpp:28-201 | book, account and slices afterwards are the specified ones, for every order type and any tie-breaking of the heaps; income is what the fills make it; and if no two orders of the run so far ever tie, the single fills are those of the run |
| ContractEngines.ContractEngine.GetPNL | src/contract_engine.cpp:320-326 | in every state: the previous position carried from the close to the last price, plus the gain of every own fill, plus the slips of the rounding; without the slips exactly if they cancel |
| ContractSpec.SliceVolumeNonNegative | src/contract_engine.cpp:22-22 | no slice is negative |
| Ledger.ProfitIdentity | src/contract_engine.cpp:324-326 | the reported sum equals the gains of the fills at the last price plus the slips, for every state the books agree on |
| Ledger.AgreesNext | src/contract_engine.cpp:270-277 | tape, position and income stay what the single fills make them, whatever the price of the next one |
| Ledger.ProceedsSlip | src/common.h:57-59 | the rounded value of a fill is its value, and one tick more below zero |
| Ledger.NoSlips | src/contract_engine.cpp:271-277 | without own fills at negative prices on the tape there are no slips, however its lines were filled |
| Fills.TapeOfDay | src/contract_engine.cpp:260-306 | the tape of every run is that of its single fills |
| NoTies.DistinctStampsNeverTie | src/common.h:117-143 | on every run, if the time stamps of the order logs increase and no two slices share theirs, no two orders on a side ever tie |
| Fills.RunsToNext | src/contract_engine.cpp:28-206 | one more event extends the run, its fills and the absence of ties |
| Ledger.PushSums | src/contract_engine.cpp:271-277 | a trade adds its signed volume and value to the sums over the tape |
| Accounting.EveryReachableState | src/contract_engine.cpp:7-306 | in every reachable state: the book is uncrossed, position, resting own orders, pending slices and self-trades add up to the target, the position is the tape's, recorded slices add up to the target |
| Accounting.StepKeeps | src/contract_engine.cpp:7-206 | each operation keeps sorted uncrossed sides and the volume balance |
| Accounting.MatchKeepsBalance | src/contract_engine.cpp:270-306 | matching moves own volume between position and book and loses only what is traded with itself |
| MakerPrice.MakerPriceIff | src/contract_engine.cpp:261-268 | a trade is at the resting price exactly if the prices agree or the incoming order is later |
| MakerPrice.SweepAtMakerIff | src/contract_engine.cpp:149-164 | all trades of one order are, exactly if that holds for every entry its volume and price reach |
| MakerPrice.MakerPriceOnRunsIff | src/contract_engine.cpp:28-306 | all trades of a run are, those of TWAP orders included, exactly if every order log is punctual on the book it meets, whatever the time stamps |
| PriceBand.AcceptedIff | src/contract_engine.cpp:54-71 | a limit order is accepted exactly if it is within the day's limits and not more than 2% or 0.10 past the base price, of either sign, give or take half a tick (one and a half for a purchase at 0) |
| PriceBand.LimitOrders | src/contract_engine.cpp:47-76 | a limit order of either direction: the offset is added to the best opposite price, else the best own one, else the last price; if the sum is within the limits and the 2% or 0.10 the order enters with it and matches, if not nothing happens |
| PriceBand.DayLimits | src/contract_engine.h:31-33 | the limits are the ticks nearest to 90% and 110% of the previous close and enclose it |
| PriceBand.SweepBandIff | src/contract_engine.cpp:149-164 | a sweep keeps the tape in the band exactly if the price of each trade it makes is in the band |
| PriceBand.PlaceBandIff | src/contract_engine.cpp:28-201 | an order log keeps all prices in the band exactly if it rests, or has its offset in the band, or comes later than every order it trades with; otherwise a price outside is on the tape |
| PriceBand.BandOnRunsIff | src/contract_engine.cpp:28-286 | for every run: all resting, traded and last prices are within the limits exactly if every order log was harmless on the book it met |
| PriceBand.BandOnEveryRun | src/contract_engine.cpp:28-286 | they are if order logs come in time order and no taking sale shares a time stamp with the log before it, and then there are no slips |
| PriceBand.MakerPriceOnEveryRun | src/contract_engine.cpp:260-306 | if no two order logs share a time stamp every trade, TWAP trades included, is at the resting order's price |
| Shortfalls.SharedTimestampLeavesBand | src/contract_engine.cpp:266-268 | two orders with one time stamp that drive the last price to 0 with a lower limit of 9.00 |
| Shortfalls.ProfitOffByOneTick | src/contract_engine.cpp:270-276 | a slice bought at -1.00 with no gain, and a slip of one tick |
| Shortfalls.FiveLevelsAreSix | src/contract_engine.cpp:121-133 | a run on which a five-level buy trades at six prices |
| TwapSchedule.SlicesAreEven | src/contract_engine.cpp:17-25 | every slice is the floor or ceiling of the even share, the first k sum to the floor of k shares, all sum to the difference |
| TwapSchedule.RecordedSlicesStay | src/contract_engine.cpp:230-246 | a recorded slice gets a price once, when it is injected, and nothing else about it ever changes |
| TwapSchedule.AlphaIs | src/contract_engine.cpp:7-26 | an alpha that changes the target records one slice per session, on the side of the change, a session apart, unpriced; nothing else is touched |
| TwapSchedule.TargetIsLast | src/contract_engine.cpp:14-14 | on every run the target is that of the last alpha |
| SlicePrices.SlicesAreQuoted | src/contract_engine.cpp:234-234 | on every run each injected slice, without volume or not, keeps as its price the best opposite price, else the best own one, else the last price, of the book just before its injection |
| Origins.EveryOrderHasAnOrigin | src/contract_engine.cpp:28-306 | on every run each resting order and each party of a fill is an order log that was sent or an injected slice, with its side, time and, if ours, recorded price; each fill has the earlier party's price; the last price is the last fill's |
| TwapSchedule.SlicesInTimeOrderIff | src/contract_engine.cpp:17-21 | recorded slices are in time order exactly if target changes are spaced by a session |
| TwapSchedule.LazyIsEager | src/contract_engine.cpp:28-32 | feeding with lazy injection equals running through the merged streams, for all streams, in book, account and recorded slice prices |
| TwapSchedule.MergeIsTheChronology | src/contract_engine.cpp:29-32 | the merge is the only chronological order of order logs and slices, order logs first at equal times |
| TwapSchedule.RunIsInsertAlphas | src/contract_engine.cpp:7-26 | running through the alphas only records their slices |
| TwapSchedule.LazyDay | src/contract_engine.cpp:7-257 | a contract's day, alphas, order logs and completion, ends in the book, account and recorded slice prices of the chronological run of its order logs and slices, and every slice is injected |
| Modular.MaskIsMod | src/io.h:17-17 | masking with the ring size minus one is the remainder, for every power of two |
| Ring.RingSafety | src/io.h:135-187 | in every interleaving the mask bits say who has consumed what, nobody lags by more than a ring, and no buffer is written while it is read |
| Ring.ReadsNextSegment | src/entrance.cpp:13-66 | a reading worker sees the very segment that is its next one |
| RingFeeding.WorkersDoAPrefix | src/entrance.cpp:13-67 | at any time a worker has done a prefix of what the files spell out |
| RingFeeding.FeedsExactlyIffNonEmpty | src/io.h:140-187 | after a complete run every worker's log says for every file: created with its path and infos, fed each record of its bytes in order, as many as there are, completed; exactly if no order file is empty |
| RingFeeding.SpellsOutIff | src/entrance.cpp:17-63 | the log that the model expects is the only one that says this |
| Records.SplitAt | src/entrance.cpp:46-54 | there are as many records as fit into the bytes, and record k is made of the bytes from k times the record size on |
| RingFeeding.SourceConfig | src/config.h:8-13 | the chunk size is a multiple of the record size and the ring has eight buffers |
| RingProgress.RingProgress | src/entrance.cpp:13-67 | a run is complete exactly when no step is possible, and all runs end within one bound |
| Records.SplitConcat | src/io.h:161-164 | cutting a file at multiples of the record size loses and splits no record |
| Records.LoadInfo | src/io.h:144-159 | what the buffer and the record count are after the loading loop |
| Records.LoadedIffItFits | src/io.h:144-159 | every file of a given size is loaded correctly exactly if it fits into the buffer |
| InstrumentTable.LookUpHolds | src/trade_engine.cpp:118-130 | with distinct residues a known id is found and a new one gets the next number |
| InstrumentTable.StableIffDistinctResidues | src/trade_engine.cpp:118-130 | for every sequence of lookups the index is a stable injective map exactly if residues are distinct |
| InstrumentTable.CollisionIsUnstable | src/trade_engine.cpp:124-129 | a displaced id is never found again, or the probe runs off the table |
| TradeEngines.TradeEngine.GetOrInsertInstrument | src/trade_engine.cpp:118-130 | the probe, including the step past the last slot |
| TradeEngines.TradeEngine.InitContract | src/trade_engine.cpp:9-16 | a fresh contract under the number the index gives, the next one or, for an id found at home, the old one; all other contracts unchanged, displaced ids included |
| TradeEngines.TradeEngine.InsertAlpha | src/trade_engine.cpp:18-29 | the shifted alpha becomes the next event of the addressed contract and of no other |
| TradeEngines.TradeEngine.InsertOrderLog | src/trade_engine.cpp:31-47 | the order becomes the next event of the addressed contract and of no other: the record's time less the offset, its volume, offset price and type, a sale exactly if its direction is -1 |
| TradeEngines.TradeEngine.OnComplete | src/trade_engine.cpp:49-52 | every contract is completed once |
| TradeEngines.TradeEngine.FeedDay | src/entrance.cpp:23-58 | every contract ends in the state of running it alone on its own events with the common time offset, that is, in the book and account of their chronological run, and without ties with exactly its fills |
| TradeEngines.OffsetIsUndone | src/trade_engine.cpp:18-29 | a contract gets exactly its own alphas, in order, all shifted by the first one's time stamp, so adding it back restores every time |
| TradeEngines.OrdersOfContract | src/trade_engine.cpp:31-47 | a contract gets exactly its own order logs, in order, each as recorded up to the offset, sales exactly for direction -1 |
| TradeEngines.ReadBack | src/trade_engine.cpp:39-45 | side and type are read back from the packed byte as the record has them |
| TradeEngines.TradeEngine.CollectTwapOrders | src/trade_engine.cpp:71-91 | all slices of all contracts with reversed ids and restored times |
| TradeEngines.TradeEngine.RowsHold | src/trade_engine.cpp:71-91 | there is one row for each slice of each contract, with its id, its time plus the offset, -1 or 1 for the side, its volume and its price |
| TradeEngines.TradeEngine.GetTwapOrders | src/trade_engine.cpp:71-97 | for 64-bit ids and any sort: a permutation of all slices by time and then alphabetically, with the original ids |
| InstrumentIds.ReverseInstrumentId | src/trade_engine.cpp:62-69 | the loop computes the byte reversal |
| InstrumentIds.ReverseTwice | src/trade_engine.cpp:62-69 | reversing a 64-bit id twice gives it back |
| InstrumentIds.ReversedOrderIsAlphabetical | src/trade_engine.cpp:62-97 | comparing reversed ids is comparing the ids as strings |
| Outputs.OutputOrder | src/trade_engine.cpp:92-97 | whatever sorted copy the sort returns, the output is a permutation of the rows by time and then alphabetically, with the original ids |

## Left out

- Matching.Push: consecutive fills between the same two parties (price, time stamp and type) form one line of the tape, so how a volume is split among tied orders is not on it; the single fills are fixed only for runs without ties.
- ContractEngines.ContractEngine.InsertOrderLog: expects a positive volume, as every exchange order has; volumes, times and products are unbounded integers instead of 32-bit ones.
- ContractEngines.ContractEngine.InsertAlpha: expects room in the fixed TWAP array, which the program does not check.
- PriceBand.AcceptedIff: is stated for the limits of a non-negative previous close, as are the theorems about the band.
- TradeEngines.TradeEngine.FeedDay: expects distinct non-zero residues of the ids, events only for known ids, and no more slices than the TWAP array holds; the limit of 256 contracts is not modelled.
- TradeEngines.ReadBack: is stated for types below 8, as the exchange's are; a larger one would spill into the side.
- TradeEngines.TradeEngine.InitContract: expects a non-zero id, since 0 marks a free slot; when the probe runs off the table the program writes past its end, and the model stops.
- TradeEngines.TradeEngine.GetTwapOrders: the library's sort is a parameter that returns a sorted permutation; time stamps are not truncated to 32 bits; the profit rows are collected, sorted and restored in the same way and are not modelled.
- InstrumentIds.ReverseInstrumentId: works on natural numbers; shifting by 8 and masking with 0xff are multiplication and division by 256.
- Ring.RingSafety: a finish mask is the set of workers whose bit is set, and steps are sequentially consistent; a buffer's fields are written and read in several separate steps.
- RingFeeding.FeedsExactlyIffNonEmpty: expects reads to be short only at the end of a file and order files below 4 GiB, where the reader's 32-bit offset would wrap around; previous-day and alpha records are taken as loaded.
- The connection from a worker's log in the ring to the calls of `FeedDay` is by reading: created, fed and completed stand for those calls.
- Floating-point rounding errors: prices are exact ticks.
- File opening, alignment, directory listing, timing, console output, debug logging, network output and memory release.
- `src/baseline_entrance.cpp`, `src/net` and the vendored test framework.

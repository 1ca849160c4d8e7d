# Akai's scheduler, write batcher and Avail ingest, in Dafny

Akai samples items of a DHT on a schedule and writes what it finds to a database. This project models the
three parts of it that carry guarantees over time and proves those guarantees.

**The sampling scheduler.** `visit_schedule.dfy` is the theory of an item's slots with unbounded durations,
`delay_loop.dfy` the loop that finds the next one, with 64-bit durations that wrap around and a clock that is read
again on every turn, and `wrapped_slots.dfy` settles for every base and multiplier when that loop ends. `slots.dfy`
is the little that is true of any sequence of slots, also of a wrapped one that is not in order.
`das_item_set.dfy` is the item set: a map and a sortable array over the same mutable items, and a cursor.
`scheduler.dfy` is a machine of atomic steps for start-up, consumer and orchestrator, with crashes and a clock
that may move between any two steps; a step is one locked call on the set, one test of an item, one computation
of a next visit, or one task sent. `rounds.dfy`, `bounded_visits.dfy`, `draining.dfy`, `starvation.dfy`,
`cursor.dfy` and `restarts.dfy` hold the theorems about all its runs, for any slots that grow without bound.
`data_sampler.dfy` and `daemon.dfy` are the loops of the program over the real item set. Each atomic method of the
orchestrator and of the consumer is a step of the machine whatever the other is in the middle of, so the methods may
be called in any interleaving; the sampler's invariant says that its state was reached by a legal run from the first
start of the program, through all crashes, and so the theorems
about runs hold of its task channel at every moment (`TasksInOrder`, `TasksBounded`).

**The write batcher.** `batcher.dfy` and `clickhouse_service.dfy`: six buffered tables, flushed when full and by
a periodic sweep. The server keeps the writes attempted, and what becomes of each is given from outside and only
learned by attempting it; what the service reports, and what the theorems say of lost rows, is about those writes.
`flush_steps.dfy` takes one table's flush apart into its reading, its write and its reset, with additions and other
flushes in between.

**The Avail ingest.** `block_requester.dfy` follows the chain, `network_scrapper.dfy` is the cache of seen blocks,
`alternator.dfy` the timed switch, `avail_block.dfy` the grid of a block's cells, `avail_key.dfy` the printing and
parsing of keys, and `pipeline.dfy` a block's way from the chain into the item set. `models.dfy`, `options.dfy`,
`sequences.dfy` and `arithmetic.dfy` hold what they share.

Times are integers in nanoseconds and the zero time is the start of year 1. Clock readings never go back. An item
comes from a scraper without a next visit (`avail/block.go:103-116` sets none). All rows and notifications of one
key carry the same timestamp and end of sampling wherever the scheduler machine is used; `Restarts` allows earlier
timestamps after a crash (the database's columns keep whole seconds), and `Daemon.SyncNetworkScrapper` allows any.
The machine's slots of a key are those of the 64-bit loop up to the latest time the clock may show (`FollowsLoop`);
there is such a world for any data (`WorldOf`). The delay loop is only started for items for which it ends: on others
the program hangs, exactly as `ReachesExactly` says.

Results that differ from what the code seems to aim for:

- The test of the stored next visit in the delay loop (`core/data_sampler.go:350`) can never hold, so the loop
  depends on timestamp, base, multiplier and clock only. It does not always stop: a slot late enough exists exactly
  under the condition `Ends` on base, multiplier and age (`ReachesExactly`), which no item meets that is older than a
  64-bit duration can span (`TooOldNeverReaches`), and every item whose largest delay fits does (`FitsReaches`).
- A removal does not move the cursor, so the neighbour of a removed item waits for the next sort (`NeighbourWaits`),
  and a pass never reaches the last of several items (`LastNotReached`). No overdue item is starved all the same
  (`NoStarvation`).
- An item that the consumer adds with no slot left before the end of its sampling is visited all the same
  (`LateItemIsVisited`): exactly once for each such addition, unless a crash comes first (`LateVisitsExactly`,
  `LateDebtRun`), and then it is removed (`ItemLeaves`).
- A row added while a flush of its table is writing is dropped by the reset at the end, even if the write succeeds,
  unless another flush took it in between (`RowFates`); a new row is safe exactly if no write is under way
  (`AddedSafely`).
- A flush that starts during another one of the same table sends again all rows that one has taken (`TakenAgain`,
  `OneRowTwice`), and nothing else sends a row twice (`SentTwiceExactly`).
- `isFlusheable` holds exactly for a negative interval (`IsFlusheable`), a failed write drops the batch, and no
  `PersistNew` call reports it.
- A block whose header could not be fetched is passed over for good once a higher one is delivered
  (`SkippedForGood`), and a first status without an available block leaves the requester idle forever (`StuckAtTop`).
- A block that the cache still holds from the rows read at start-up is not processed when the requester delivers it
  (`DeliveredPassOnce`).
- A key with a coordinate of 2^63 or more prints but does not parse (`RoundTrip`).
- The alternator follows its duration exactly when that is shorter than the interval (`RunUntil`).

## Model

| member | source | states |
|---|---|---|
| VisitSchedule.FirstSlotClosedForm | core/data_sampler.go:339-373 | round r returns timestamp + (r-1)*base in constant mode and timestamp + base*multiplier^(r-2) in exponential mode |
| VisitSchedule.FirstIndex | core/data_sampler.go:346-354 | the slot found is not before now and every earlier slot is |
| VisitSchedule.FirstIsUnique | core/data_sampler.go:346-354 | there is only one such slot |
| VisitSchedule.FirstSlotMonotoneAndStable | core/data_sampler.go:339-365 | a later clock never gives an earlier slot, and gives the same slot if and only if it has not passed it |
| VisitSchedule.SlotOrder | core/data_sampler.go:367-373 | with a positive base and, in exponential mode, a multiplier of at least 2, slots are ordered as their rounds |
| VisitSchedule.DelayBound | core/data_sampler.go:346-353 | no delay on the way exceeds max(base, age + base) or max(base, age * multiplier) |
| VisitSchedule.FewTurns | core/data_sampler.go:350-354 | in exponential mode the number of turns is logarithmic, to base multiplier, in the age of the item |
| DelayLoop.ComputeNextVisitTime | core/data_sampler.go:339-365 | with 64-bit delays and a clock that moves between turns, whenever the loop ends the result is the first slot not before the last reading, whatever the stored next visit |
| DelayLoop.NoOverflow | core/data_sampler.go:367-373 | when the largest delay needed fits, no turn wraps around |
| DelayLoop.WrappedFirstIsFirst | core/data_sampler.go:346-364 | and the 64-bit result is the ideal first slot |
| Slots.FirstMonotoneAndStable | core/data_sampler.go:346-354 | for slots in any order a later clock gives no earlier slot, the same one while it has not passed it, and afterwards a later one with a higher round |
| DelayLoop.TooOldNeverReaches | core/data_sampler.go:350-354 | no 64-bit slot reaches a clock more than 2^63-1 nanoseconds past the timestamp |
| WrappedSlots.WrapsIdeal | core/data_sampler.go:367-373 | the 64-bit delay of any round is the ideal one wrapped around, for any base and multiplier |
| WrappedSlots.ReachesExactly | core/data_sampler.go:350-354 | for every 64-bit base and every multiplier some 64-bit slot is late enough if and only if Ends holds: in constant mode the age is at most 2^63 less the largest power of two in the base (0 for base 0), in exponential mode one of the first 65 slots is late enough (even multiplier) or the age is at most the larger top of two residue classes (odd multiplier) |
| DasItemSet.ItemSet.constructor | core/das_item_set.go:27-33 | a new set is empty with the cursor before the start |
| DasItemSet.ItemSet.AddItem | core/das_item_set.go:47-60 | appends an item of a new key to map and array, and changes nothing for a known key |
| DasItemSet.ItemSet.RemoveItem | core/das_item_set.go:62-80 | takes the key out of the map and its first item out of the array, leaving the cursor; also when map and array disagree |
| DasItemSet.ItemSet.Next | core/das_item_set.go:84-95 | the item under the cursor, which moves on, or none outside the array |
| DasItemSet.ItemSet.NextVisitTime | core/das_item_set.go:101-117 | a sort is needed exactly when the cursor stands on the last item or beyond; no access runs off the array |
| DasItemSet.ItemSet.Swap | core/das_item_set.go:146-148 | exchanges two items and keeps all others |
| DasItemSet.ItemSet.SortItemList | core/das_item_set.go:136-153 | leaves a permutation sorted by next visit, the map unchanged and the cursor at the start |
| DasItemSet.RemovalKeepsAgreement | core/das_item_set.go:62-80 | after a removal map and array still hold the same items, one per key |
| DasItemSet.PermutationKeepsAgreement | core/das_item_set.go:136-143 | so they do after any permutation of the array |
| Scheduler.SetInvStep | core/data_sampler.go:101-219 | every step of every interleaving keeps: array and map hold the same keys, each once, the cursor is at least -1, what the orchestrator holds is in the set, and only the item being added has no next visit |
| Rounds.InvStep | core/data_sampler.go:101-219 | every step, crash and restart keeps the log of tasks chained and every pending next visit the one that would be computed now |
| Rounds.InvRun | core/data_sampler.go:101-219 | so does every run |
| Rounds.VisitAdvances | core/data_sampler.go:176-208 | a task is for an item whose slot had passed, has a round of at least 3 and moves the item to a later slot |
| Rounds.UniqueRounds | core/data_sampler.go:176-208 | over every run from the start, through any crashes, the tasks of a key have strictly increasing rounds and next visits, and each is due no earlier than the one before said |
| Restarts.RoundsOverRestarts | core/daemon.go:68-94 | the rounds of a key increase strictly over any number of processes, also when each restart moves its slots earlier |
| Restarts.CutOff | core/daemon.go:68-94 | as a stored timestamp does that is cut off to an earlier time |
| Rounds.RestartTransparent | core/daemon.go:76-82 | after a crash, and after any other rows and ticks of the clock, the row of an item whose next visit has not come up gives it back that next visit |
| Rounds.LeavesOnlyWithTask | core/data_sampler.go:199-208 | short of a crash, an item leaves the set only on the way to a task computed for it, whose next visit is too late |
| BoundedVisits.SlotsBeforeCounts | core/data_sampler.go:319-331 | the slots counted are exactly those before the first that is not before the end of sampling |
| BoundedVisits.RankBound | core/data_sampler.go:199-208 | the visits of a key before a given one number at most the index of the slot it was due at |
| BoundedVisits.VisitsBounded | core/data_sampler.go:101-208 | over every run, tasks of a key due in time number at most its slots in time, and late ones at most the consumer's late additions |
| BoundedVisits.LateDebtRun | core/data_sampler.go:101-208 | over every run each late addition is accounted for exactly once: visited, in flight, waiting, or lost to a crash |
| BoundedVisits.LateVisitsExactly | core/data_sampler.go:101-208 | in one process the late visits are exactly as many as the late additions, but for one that may still wait |
| BoundedVisits.LateItemIsVisited | core/data_sampler.go:105-109 | a run in which an item added with no slot left is visited |
| Draining.VisitsInAnyRun | core/data_sampler.go:101-208 | over every run a key is visited at most once per slot before the end of its sampling, and once more for each time it enters after that |
| Draining.VisitsAreTasks | core/data_sampler.go:199-208 | short of a crash the visits counted are exactly the tasks sent or in flight |
| Draining.ItemVisits | core/data_sampler.go:199-208 | from any state until the consumer adds the key anew with no slot left, through duplicates, crashes, re-synchronisations and any other keys, an item is visited at most max(1, slots before the end) times |
| Draining.Drains | core/data_sampler.go:167-219 | without new items the tasks number at most the weight of the set, and at that number it is empty but for an item just being removed |
| Draining.ItemLeaves | core/data_sampler.go:167-219 | an item whose next visit and end of sampling have passed leaves within a number of passes, or of turns, known in advance, whatever else is added and through any crashes |
| Draining.RunsEmpty | core/data_sampler.go:167-219 | so without new items the set runs empty once all next visits and ends of sampling have passed |
| Starvation.NoStarvation | core/data_sampler.go:167-219 | an overdue item sees no more passes go by than there are items at or before its next visit, whatever is added meanwhile; a sort between the consumer's two steps on a new item starts no pass |
| Starvation.PassStarts | core/das_item_set.go:136-153 | every pass begins with an item at least as late as the overdue one |
| Starvation.TallyCounts | core/data_sampler.go:167-219 | the calls, additions and sorts counted are those of the run, and every sort starts a pass or falls between the consumer's two steps |
| Starvation.BoundedResponse | core/data_sampler.go:167-219 | it is visited within (items + additions) * (items ahead + sorts between the consumer's two steps) turns, the rest of the pass under way, and one turn per addition |
| Cursor.CursorInvRun | core/das_item_set.go:62-117 | in every run the orchestrator about to take an item finds the cursor before the start, at the only item, or short of the last one, and what it holds stands just before the cursor |
| Cursor.LastNotReached | core/das_item_set.go:101-117 | so no pass ever takes the last of several items |
| Cursor.NeighbourWaits | core/das_item_set.go:62-95 | after a removal the next item taken is two places further on, and the one between is not taken before the next sort, whatever the consumer adds |
| DataSampler.DataSampler.constructor | core/data_sampler.go:46-73 | a new sampler has an empty set and sends nothing yet; it goes on from any run of the machine that ended in a crash, or starts the first one |
| DataSampler.DataSampler.UpdateNextVisitTime | core/data_sampler.go:305-331 | whenever the delay loop ends, writes the first slot not before now into the item; valid exactly if that is before the end of sampling |
| DataSampler.LoopGivesFirst | core/data_sampler.go:339-365 | the slot and round of the 64-bit loop are those of the machine at every time the clock may show |
| DataSampler.WorldOf | core/data_sampler.go:339-373 | for any settings and any data of the keys there is a world of the machine that follows the loop |
| DataSampler.DataSampler.VisitItem | core/data_sampler.go:199-200 | is the machine's visit step on the shared item, wherever the consumer stands |
| DataSampler.DataSampler.SortItems | core/data_sampler.go:143-148 | is the machine's sort step, wherever the consumer stands |
| DataSampler.DataSampler.TakeNext | core/data_sampler.go:176-182 | is the machine's step to the next item, wherever the consumer stands |
| DataSampler.DataSampler.TestReady | core/data_sampler.go:185-197 | an item is ready exactly if it has a next visit and the clock is strictly past it |
| DataSampler.DataSampler.Retire | core/data_sampler.go:201-203 | is the machine's removal step, wherever the consumer stands, on map and array |
| DataSampler.DataSampler.Send | core/data_sampler.go:204-208 | is the machine's sending step and appends that task to the channel |
| DataSampler.DataSampler.TestSort | core/data_sampler.go:214-217 | is the machine's test whether the cursor is at the end of the array |
| DataSampler.DataSampler.TestInit | core/data_sampler.go:126-135 | the orchestrator's first loop ends exactly if the array holds an item |
| DataSampler.DataSampler.Dispatch | core/data_sampler.go:199-208 | sends one task for the item, which stays exactly if its new next visit is before the end of sampling |
| DataSampler.DataSampler.Fetch | core/data_sampler.go:176-197 | the beginning of a turn takes the item under the cursor, which moves on, exactly if that is ready when tested; otherwise the array is sorted and the cursor at its start |
| DataSampler.DataSampler.SortAtEnd | core/data_sampler.go:214-217 | the end of a turn sorts the array if the cursor is at its last item or beyond, and changes nothing otherwise |
| DataSampler.DataSampler.OrchestratorTurn | core/data_sampler.go:167-219 | a turn, wherever the consumer stands, sends a task for the item under the cursor if that is ready, and none otherwise; it says where array and cursor stand afterwards in every case, and removes at most that item |
| DataSampler.DataSampler.ConsumeItem | core/data_sampler.go:105-109 | adds an item of a new key and schedules it, wherever the orchestrator stands |
| DataSampler.DataSampler.AddNew | core/data_sampler.go:107-107 | is the consumer's first step: the item enters without a next visit if its key is new |
| DataSampler.DataSampler.ScheduleNew | core/data_sampler.go:108-108 | is its second step: the item gets its first slot, also when it was dropped |
| DataSampler.DataSampler.ConsumeNewSamplingItems | core/data_sampler.go:101-110 | a notification is consumed item after item, wherever the orchestrator stands |
| DataSampler.ConsumedKeys | core/data_sampler.go:105-109 | every new key enters with one of the items, and no item in the set is replaced |
| DataSampler.DataSampler.SyncRow | core/daemon.go:76-82 | a row that agrees with its key's data is a synchronisation step of the machine |
| DataSampler.DataSampler.SyncDone | core/data_sampler.go:78-81 | is the step that ends the start-up and lets consumer and orchestrator begin |
| DataSampler.DataSampler.TasksInOrder | core/data_sampler.go:176-208 | at every moment the tasks in the channel have rounds of at least 3, strictly increasing for each key |
| DataSampler.DataSampler.TasksBounded | core/data_sampler.go:101-208 | at every moment the tasks of a key in the channel number at most its slots before the end of sampling and the consumer's late additions |
| DataSampler.DataSampler.AddRow | core/daemon.go:76-82 | a row enters the set exactly if its first slot precedes the end of its sampling and its key is new |
| Daemon.SyncNetworkScrapper | core/daemon.go:68-94 | gives every row its first slot at its own reading of the clock and leaves the set that Synced describes; if rows of one key agree, it is a run of the machine |
| Daemon.SyncedIsFirstPerKey | core/daemon.go:76-82 | that set has exactly one item per key with a row still sampled: the first such row |
| ClickhouseService.QueryBatcher.constructor | db/clickhouse/batcher.go:39-52 | a new batcher is empty |
| ClickhouseService.QueryBatcher.AddItem | db/clickhouse/batcher.go:59-65 | appends one row, counts it twice, and says whether the size is reached |
| ClickhouseService.QueryBatcher.IsFlusheable | db/clickhouse/batcher.go:71-73 | true exactly for a negative flush interval |
| ClickhouseService.QueryBatcher.GetPersistable | db/clickhouse/batcher.go:76-81 | all pending rows and their number |
| ClickhouseService.QueryBatcher.ResetBatcher | db/clickhouse/batcher.go:84-88 | empties the buffer |
| ClickhouseService.ClickHouseDB.FlushBatcher | db/clickhouse/service.go:377-403 | makes exactly one write, of all pending rows of the table, if there are any; empties its buffer in any case; fails exactly if that write fails |
| ClickhouseService.Database.PersistBatch | db/clickhouse/service.go:338-375 | one write is attempted and the caller learns what becomes of it |
| ClickhouseService.ClickHouseDB.FlushBatcherIfNeeded | db/clickhouse/service.go:405-410 | flushes a full buffer and never fails |
| ClickhouseService.ClickHouseDB.PersistNew | db/clickhouse/service.go:412-421 | adds one row to one table and makes a write, of all its rows, exactly if that fills the buffer; never fails; the other tables stay as they are |
| ClickhouseService.ClickHouseDB.PersistNewSamplingItems | db/clickhouse/service.go:441-452 | all rows are added in order, written or pending, and counted; never fails |
| ClickhouseService.ClickHouseDB.FlushAllBatchers | db/clickhouse/service.go:290-319 | writes what is pending table after table until a write fails, the last one made; fails exactly if that happens; tables after it are as they were and all others empty |
| ClickhouseService.SweepWritesAre | db/clickhouse/service.go:290-319 | the writes of a sweep are the pending rows of its tables, in the order of the tables |
| ClickhouseService.SweepWritesAll | db/clickhouse/service.go:290-319 | and none with pending rows is left out |
| Batches.AddRowRows | db/clickhouse/service.go:405-421 | an addition keeps all rows in order and sends a batch exactly if it fills the buffer |
| ClickhouseService.SweepStops | db/clickhouse/service.go:290-319 | the sweep flushes the tables up to the first that fails and no other |
| ClickhouseService.SweepEmpties | db/clickhouse/service.go:290-319 | success empties all six buffers; failure empties those up to the failing one, whose rows are lost, and keeps the rest |
| ClickhouseService.Conservation | db/clickhouse/service.go:377-463 | in every run rows added are, in order, those sent and those pending; the counter agrees; buffers stay below the size and batches within 1 and the size |
| ClickhouseService.Accounting | db/clickhouse/service.go:377-410 | rows stored, rows of failed writes and rows pending add up to the rows added |
| FlushSteps.DropsExactly | db/clickhouse/service.go:377-403 | with reading, write and reset apart, only a reset drops rows, exactly those that came after the last flush of the table had started, whether or not a write fails |
| FlushSteps.RowFates | db/clickhouse/service.go:377-403 | over every interleaving each row is in the buffer, in a write, or dropped, and dropped if and only if such a reset came upon it |
| FlushSteps.AtRiskExactly | db/clickhouse/service.go:377-403 | in any state a row can still be dropped if and only if no flush has seen it and a write is under way |
| FlushSteps.AddedSafely | db/clickhouse/service.go:412-421 | so a new row can be dropped later if and only if a write of its table is under way when it is added |
| FlushSteps.CopiesStep | db/clickhouse/service.go:377-403 | the start of a flush puts every row of the buffer into one more write, and nothing else does |
| FlushSteps.TakenAgain | db/clickhouse/service.go:377-403 | the rows it sends again are exactly those in the buffer that some earlier flush has taken |
| FlushSteps.SentTwiceExactly | db/clickhouse/service.go:377-403 | over every interleaving some row is written twice if and only if a flush starts on such rows, which takes two flushes at once |
| FlushSteps.OneRowTwice | db/clickhouse/service.go:377-410 | a run in which one row is stored twice |
| FlushSteps.SentOnce | db/clickhouse/service.go:377-403 | if no flush of the table starts during another, the writes take consecutive rows in order and none twice |
| FlushSteps.FlushInOnePiece | db/clickhouse/service.go:377-403 | a flush with nothing in between is the flush of the whole buffer and drops nothing |
| BlockRequesters.BlockRequester.constructor | avail/block_requester.go:67-69 | starts one block before the first reported one, wrapping around at zero |
| BlockRequesters.BlockRequester.ProcessNewBlock | avail/block_requester.go:142-159 | the header's number becomes the last tracked exactly if all consumers accept |
| BlockRequesters.BlockRequester.ProposalTick | avail/block_requester.go:96-133 | a tick is the catch-up described by Tick; a failed status request stops the requester, and a reported block that is not new changes nothing |
| BlockRequesters.TickExact | avail/block_requester.go:107-129 | a tick requests exactly the blocks above the last tracked, each once in order, up to the first refused one, at which the requester stops; failed ones above the last tracked are requested again; a report at or below the last tracked changes nothing |
| BlockRequesters.HighestCame | avail/block_requester.go:142-159 | the new last tracked block is the highest whose header came, or the old one if none did |
| BlockRequesters.FailedStatusIsTheEnd | avail/block_requester.go:96-103 | over every run, after one failed status request nothing is requested, delivered or tracked any more |
| BlockRequesters.FollowsChain | avail/block_requester.go:96-159 | over every run blocks are delivered in strictly increasing order, and each up to the last tracked was delivered or failed before a higher one was |
| BlockRequesters.RunKeeps | avail/block_requester.go:96-159 | the last tracked block never goes back and what was delivered stays delivered |
| BlockRequesters.SkippedForGood | avail/block_requester.go:113-129 | a block passed over is never delivered later |
| BlockRequesters.StuckAtTop | avail/block_requester.go:69-111 | from the wrapped-around start nothing is ever requested |
| BlockRequesters.DeliveredPassOnce | avail/network_scrapper.go:175-181 | after any start-up rows, the delivered blocks let through are in strictly increasing order, and a delivered block is kept back exactly if the cache still holds it from those rows |
| NetworkScrapper.LruCache.Add | avail/network_scrapper.go:181 | appends the newest entry, and drops the oldest and no other if the cache is full |
| NetworkScrapper.Scrapper.Offer | avail/network_scrapper.go:175-181 | lets a block through exactly if it is none of the last size blocks let through |
| NetworkScrapper.CacheRefinesRecord | avail/network_scrapper.go:175-181 | the cache decides as an unbounded record if and only if no block returns after capacity or more others; from the first that does it lets more through |
| NetworkScrapper.IncreasingAllProcessed | avail/network_scrapper.go:175-181 | blocks in increasing order offered to an empty cache are all let through |
| NetworkScrapper.SeededCache | avail/network_scrapper.go:238-244 | with any rows first, an increasing stream is let through but for what the cache still holds from the rows |
| NetworkScrapper.PassedIncreases | avail/network_scrapper.go:175-181 | what is let through then is in increasing order and drawn from the stream |
| NetworkScrapper.PassedExactly | avail/network_scrapper.go:175-181 | a block of the stream passes if and only if it is not kept back from the start-up |
| Alternators.Alternator.constructor | avail/network_scrapper.go:130-132 | tracking is on at the start and both tickers run |
| Alternators.Alternator.DurationTick | avail/network_scrapper.go:136-138 | turns the flag over and stops the duration ticker |
| Alternators.Alternator.IntervalTick | avail/network_scrapper.go:140-142 | turns the flag over and restarts the duration ticker |
| Alternators.Alternator.RunUntil | avail/network_scrapper.go:130-156 | at every time t the flag is on exactly if t mod interval < duration when the duration is the shorter, and alternates by interval when it is the longer |
| AvailBlocks.GetDASSamplingItems | avail/block.go:94-121 | rows * columns fresh items, item i for row i / columns and column i mod columns, without a next visit |
| AvailBlocks.CellItem | avail/block.go:72-116 | an item is of its block, row and column, seen at the block's second and sampled for 27 hours from there |
| AvailBlocks.CellKeysDistinct | avail/block.go:98-109 | keys of different cells differ, within a block and across blocks |
| AvailBlocks.CellsCoverGrid | avail/block.go:96-117 | each cell of the grid is at exactly one position of the list |
| AvailBlocks.AvailTenSlots | config/avail.go:25-41 | with Avail's settings ten slots precede the end of sampling, the last past the 24 hour mark |
| AvailBlocks.AvailTenVisits | avail/block.go:76-78 | so a cell is visited at most ten times, through crashes, duplicates and with any other cells added, until it is added anew with no slot left |
| Pipeline.TrackBlock | avail/network_scrapper.go:195-199 | afterwards every cell of the grid is in the set, each new one under its key with the block's number, row, column and times; no other key is new, no item is replaced, and of a new block exactly rows * columns items are added |
| AvailKeys.GetCoordinatesFromStr | config/avail.go:188-209 | the three coordinates, or a failure for any other number of parts or a part that is no number |
| AvailKeys.AvailKeyFromString | config/avail.go:144-154 | parses exactly the keys that Parse describes |
| AvailKeys.ParsePrinted | config/avail.go:211-217 | a printed coordinate parses back if and only if it is below 2^63 |
| AvailKeys.PrintedForm | config/avail.go:156-158 | a printed key is the three numbers with colons between them, and has exactly two colons |
| AvailKeys.ReadDigits | config/avail.go:211-217 | digits are read exactly if their value is below 2^63 |
| AvailKeys.ReadPlus | config/avail.go:211-217 | also behind a plus sign |
| AvailKeys.ReadMinus | config/avail.go:211-217 | behind a minus sign they are read down to -2^63 and count back from 2^64 |
| AvailKeys.ReadOnlyDigits | config/avail.go:211-217 | nothing but digits with an optional sign is read |
| AvailKeys.PaddedValue | config/avail.go:211-217 | leading zeros do not count |
| AvailKeys.PrintParsed | config/avail.go:211-217 | a parsed coordinate prints as written if and only if it was canonical |
| AvailKeys.RoundTrip | config/avail.go:144-158 | a printed key parses to itself if all coordinates are below 2^63 and is refused otherwise |
| AvailKeys.PrintInjective | config/avail.go:156-158 | different keys print differently |
| AvailKeys.PrintOfParse | config/avail.go:144-158 | printing a parsed key gives the same text if and only if each coordinate was canonical |

## Left out

- ProposalTick: a reported last block of 2^64-1, on which the loop counter wraps around to zero and the loop goes on until
  a consumer refuses a block.
- FlushBatcher: reading, write and reset are one step here, and so is every whole operation in Conservation and Accounting;
  what additions and other flushes in between do is in `FlushSteps`, on row numbers and for one table.
- Unlocked memory races: one read or write of a next visit or of a batcher's fields is atomic, and an addition to a
  buffer is one step; what the hardware makes of two at once is not modelled.
- Liveness of the tickers: that the orchestrator takes its turns every 250 milliseconds is not modelled; the starvation
  results count passes and turns.
- The sort of the Go library: any sorted permutation; an insertion sort stands for it.
- The golang-lru cache and strconv.Atoi, strings.Split: not part of the repository; modelled from their documented behaviour.
- The alternator with duration equal to interval: both tickers are due at once and either may be handled first, so nothing is claimed.
- The branch of updateNextVisitTime for an unsupported protocol.
- Fields of a sampling item that neither scheduling nor the grid reads (network, types, hash, metadata, Traceable), and the quorum of a task.
- The six row types share one type parameter, and the six PersistNew methods for a single row, which differ in the table only, are one method.
- The counters of rows and requested blocks do not wrap around.
- Hash parsing in FromAPIBlockHeader, the consumers' own work, and the time-out of a notification: a consumer accepts a block or fails.
- The samplers themselves, the other networks' scrapers, the DHT host, the HTTP interfaces, SQL and migrations, metrics.

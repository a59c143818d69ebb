# Hyper-cache: a verified model of its concurrent structures

The repository builds a cache out of four structures that trade simplicity for speed: a CLOCK cache
over an open-addressing table, a bounded multi-producer multi-consumer queue, an atomic shared
pointer packed into one word, and skip lists, one sequential and one concurrent. This project models
each of them and proves that the fast structure agrees with a simple specification: for all inputs,
for every interleaving of any number of threads, and for every run.

## How the model is organised

| file | models |
|---|---|
| `Options.dfy` | a value that may be absent |
| `Sums.dfy` | finite sums: each conservation law is a sum of what slots and threads hold |
| `Walk.dfy` | the double-hashing walk of the table, with its 64-bit wrap-around |
| `MetaWord.dfy` | the packed `meta` word and the record it stands for |
| `ClockTable.dfy`, `ClockMachine.dfy` | the CLOCK cache as a machine: one step per atomic access |
| `ClockLedger.dfy`, `ClockSafety.dfy` | what each step moves in each ledger, and what whole runs keep |
| `ClockRoom.dfy`, `ClockEffort.dfy`, `ClockProgress.dfy` | the occupancy limit and the empty slot it guarantees; how many steps the sweep of an eviction, a placement and an erasure can take |
| `ClockCalls.dfy` | what an erasure, an insertion and a lookup achieve and answer while other threads move |
| `ClockSolo.dfy`, `ClockSoloSweep.dfy`, `ClockSoloPlace.dfy`, `ClockSoloInsert.dfy`, `ClockSoloLookup.dfy` | the machine when one thread moves and the others stand still: its calls do what the class says |
| `ClockSchedules.dfy`, `ClockRuns.dfy` | which schedules keep the references exact, and runs that do not |
| `HitExcess.dfy`, `ClockHits.dfy`, `ClockHitRuns.dfy` | how far the counters of the `meta` word can go: additions and late corrections of hits as a game, its bound on the machine, and a run that exceeds it |
| `ClockIndex.dfy`, `ClockCache.dfy` | the CLOCK cache as a class, one call per public operation |
| `ClockSweep.dfy`, `ClockHand.dfy` | its eviction as a function; what that does to each slot, counts, and stops for, in terms of the visits of the hand |
| `ClockDecrement.dfy`, `ClockHeat.dfy` | what the unwritten sum of the eviction changes, and a client that gets there |
| `QueueMachine.dfy`, `QueueProofs.dfy`, `QueueCalls.dfy`, `QueueRuns.dfy` | the queue as a machine, refining a FIFO; its calls, linearized; particular runs of it |
| `TaggedPtr.dfy` | address, version and mark in one word |
| `SharedPtr.dfy`, `SharedPtrRuns.dfy`, `SharedPtrHistory.dfy` | the atomic shared pointer as a machine, linearized as a register |
| `SkipLevels.dfy`, `SkipList.dfy` | the sequential skip list as heap nodes, refining a map |
| `AtomicSkipMachine.dfy`, `AtomicSkipProofs.dfy`, `AtomicSkipSafety.dfy`, `AtomicSkipHistory.dfy`, `AtomicSkipRuns.dfy` | the concurrent skip list as a machine, linearized as a map when nothing is deleted; a run that loses a value |
| `AtomicSkipDeletions.dfy`, `AtomicSkipLevels.dfy` | deletions, lookups and upper links of that list in every run, deletions included |
| `SkipCells.dfy`, `AtomicSkipList.dfy`, `Compaction.dfy` | the same list used by one thread, and the rebuilding of a bucket |

A machine is a function from a state, a thread and the choices of the environment to the next state.
`Step` takes one atomic access of one thread, `Run` a sequence of them, and a compare-and-swap that
may fail spuriously asks the environment. The transition functions (`ClockMachine.ExecLookup`,
`ExecReserve`, `ExecEvict`, `ExecPlace`, `ExecErase`; `QueueMachine.Exec`; `SharedPtr.Exec`;
`AtomicSkipMachine.Exec`) follow the statements of the source one by one; their program counters are
named after the access that comes next.

In the CLOCK machine a step never touches more than one slot, so an invariant about the whole table
is a family of ledgers. For each slot the displacement counter is the sum, over resident entries and
over half-done insertions and rollbacks, of what each contributes; the same holds for usage,
occupancy, references, ownership and pending deleters. `ClockLedger` shows that each step moves both
sides of every ledger by the same amount, and `ClockSafety` sums that up.

Assumptions, all stated as preconditions: the table length is a power of two (shown to be exactly
what the walk needs by `Walk.CoversExactlyPow2`), the occupancy limit is below the length, callers
release exactly what a lookup gave them, and the keys of the concurrent skip list lie strictly
between its two sentinels. Atomics are sequentially consistent.

## What turned out to be false, and when it holds

- Reference counts in every interleaving. An erasure increments a slot it then finds not shareable
  and decrements it later, in a separate access. If another thread publishes an entry there in
  between, the decrement takes a reference away from it; if the entry is erased again first, the
  decrement turns the word of an empty slot into that of a visible one. `ClockRuns.ProgramReachesBoth`
  gives a run of the model for both, on a table of length two with the program's own walk.
  `ClockSafety.StepKeepsInvExactly` shows that such a decrement is the only step that breaks the
  invariant, with the exact condition on the slot, and `ClockSchedules.UndisturbedFromStart` turns that into a condition on the schedule: no
  word is exchanged while a stray increment is on it. Taking increment and decrement as adjacent
  steps is enough (`ClockSchedules.PairedRunIsClean`).
- The hit counter staying in its field. Every lookup takes back an excess computed from its own old
  value, and a crowd takes back more than it added. `ClockHitRuns.HitsNeverBorrowIff`: no clean run
  takes the counter of an entry in service below zero if and only if there are at most 57 threads.
  Below zero it borrows on the word and hides the entry (`MetaWord.HitBorrowHides`).
- The bound of the queue. With one slot a second push overwrites the first value.
  `QueueRuns.BoundHoldsExactly`: the bound holds in every run if and only if the capacity is at least
  two.
- A refused push meaning "full" and a refused pop meaning "empty", as the comments say.
  `QueueProofs.RefusedPushMeansFull`: a refused push met a full queue if and only if no consumer is
  at work in the slot it was refused at; `QueueProofs.RefusedPopMeansEmpty` for producers.
  `QueueRuns.RefusedPushNeedNotMeanFull` and `QueueRuns.RefusedPopNeedNotMeanEmpty` give runs where
  they are.
- The reader count of the shared pointer. A load that finds the 14-bit field full makes it wrap, and
  only that does (`SharedPtr.StepKeepsInvExactly`). `SharedPtrRuns.AlwaysExactIff`: all accounts are
  exact in every run if and only if there are fewer than 2^14 threads.
- Memory safety of the shared pointer. `SharedPtrRuns.AlwaysSafeIff`: no thread touches a box that is
  not allocated, in any run, if and only if there are at most 2^14 threads. With one more, 2^14 loads
  wrap the count to zero and a store deletes the box they are about to copy.
- Insert followed by Get in the concurrent skip list, already for one thread. An insertion over a
  deleted key updates a node that lookups skip: `SkipCells.InsertThenGet` gives the exact condition.
  Linking a neighbour clears the mark, and `SkipCells.InsertElsewhere` says exactly when that brings
  the skipped value back. `AtomicSkipObject.InsertIsHiddenAndRevived` is a client method whose contract
  states both.
- An insertion putting its handle into the concurrent skip list. A lost swap on level 0 deletes the
  node the handle was moved into, and the next attempt has none.
  `AtomicSkipSafety.FinishedInsertion`: what a finished insertion has put into the node of its key is
  its handle if and only if it has lost no such swap, and nothing otherwise. The other thread's
  handle goes as well: `AtomicSkipRuns.BothInsertionsAreLost` is a run in which two threads insert one
  absent key, both return, nobody deletes it, and a lookup answers nothing, because the loser finds the
  winner's node and stores nothing over its handle.
- The walk for other table lengths: `Walk.CoversExactlyPow2`.
- The adaptive hit decrement of the eviction. ClockUpdate adds the new hit count to the address of
  the sum, which it was passed by value, and not to the sum. `ClockSweep.EvictionOf` is the eviction
  as a function of the table, with the sum written or not, and `ClockObject.ClockCache.Evict` is
  proved to be the form that does not write it. The offset is never reset, so even a written sum
  would tell once, for one round: from then on the decrement would be drawn from four slots at a time,
  which gives 1. `ClockDecrement.StoredDeltaIff`: the two forms store the same decrement if and only
  if the hand does not move exactly 5000 positions, or the average over the first 4996 of them does
  not exceed 1 or the configured minimum. `ClockHeat.Prime` builds a cache, from an empty one and by
  calls alone, on which the next insertion ends there: it stores 1 where the written sum gives 2
  (`ClockHeat.LosesAverage`).

## Model

| member | source | states |
|---|---|---|
| Walk.WrapVanishes | src/clock/clock_cache.cc:354-366 | reducing modulo 2^64 before reducing modulo a power-of-two length changes no residue |
| Walk.VisitAffine | src/clock/clock_cache.cc:334-341 | the n-th slot of the walk is congruent to the base hash plus n strides, wrap-around included |
| Walk.Inverse | src/clock/clock_cache.cc:336-336 | an odd stride has an inverse modulo every power of two |
| Walk.VisitStepsTo | src/clock/clock_cache.cc:337-340 | every slot is met within `length` steps, at a step computed from the inverse, so a rollback to any slot ends |
| Walk.VisitInjective | src/clock/clock_cache.cc:358-369 | no slot is met twice within `length` steps |
| Walk.VisitReturns | src/clock/clock_cache.cc:366-369 | after exactly `length` steps the walk is back at its first slot, which ends the search |
| Walk.CoversExactlyPow2 | src/clock/clock_cache.h:21-21 | every walk meets every slot if and only if the length is a power of two |
| Walk.OddProbePermutes | src/clock/clock_cache.cc:350-371 | the walk order of every key is a permutation of the slots that the program's two statements follow |
| MetaWord.GettersReadFields | src/clock/clock_cache.cc:22-28 | the shifts and masks read back exactly the fields that were packed |
| MetaWord.PackInjective | src/clock/handle.h:40-61 | comparing two words compares all fields |
| MetaWord.CountersRefine | src/clock/clock_cache.cc:18-40 | adding to or subtracting from a counter within its 30 bits touches no other field; that they stay there is `ClockHits.CountersStayInField` |
| MetaWord.StateBitsRefine | src/clock/clock_cache.cc:60-60 | fetch-or of the occupied bit and fetch-and of the visible bit change the state marker as the record does, and nothing else |
| MetaWord.RefDecrementExact | src/clock/clock_cache.cc:20-20 | a decrement leaves the other fields alone if and only if the count is positive |
| MetaWord.HitDecrementExact | src/clock/clock_cache.cc:30-32 | taking hits off leaves hit bit and state alone if and only if there are that many |
| MetaWord.HitBorrowHides | src/clock/clock_cache.cc:30-32 | one hit too many taken off a visible entry makes it read as invisible |
| MetaWord.DecrementOfVacantForgesVisible | src/clock/clock_cache.cc:279-281 | decrementing the zero word of an empty slot makes it read as visible with a full reference field |
| ClockLedger.LookupLocal | src/clock/clock_cache.cc:190-217 | every step of a lookup balances all ledgers of the slot it touches and keeps the views of all threads |
| ClockLedger.ReserveLocal | src/clock/clock_cache.cc:407-421 | the reservation of a place and of charge, retries included, balances all ledgers |
| ClockLedger.EvictLocal | src/clock/clock_cache.cc:289-332 | every step of an eviction, and of its settlement, balances all ledgers |
| ClockLedger.PlaceLocal | src/clock/clock_cache.cc:373-405 | every step of a placement, and of its rollback, balances all ledgers; where it may end is `ClockCalls.InsertNeverPasses` and `ClockSoloPlace.PlaceStep` |
| ClockLedger.FailLocal | src/clock/clock_cache.cc:238-240 | giving back place and charge after a failed insertion balances all ledgers |
| ClockLedger.EraseLocal | src/clock/clock_cache.cc:243-287 | every step of an erasure whose stray decrement meets a stray increment balances all ledgers; what it achieves is `ClockCalls.EraseNeverPasses` and `ClockSolo.UndisturbedErase` |
| ClockLedger.DoneLocal | src/clock/clock_cache.cc:185-188 | starting an operation and releasing a loan balance all ledgers |
| ClockCalls.EraseNeverPasses | src/clock/clock_cache.cc:243-287 | while one slot shows the key, from the start of an erasure of that key on, the erasure has not come to its end, whatever the other threads do |
| ClockCalls.EndedEraseHidAll | src/clock/clock_cache.cc:243-287 | no entry for the key stays visible in one slot from the start of an erasure to its end |
| ClockCalls.EraseAnswersExactly | src/clock/clock_cache.cc:286-286 | an erasure answers false if and only if it has hidden some copy, or held one another erasure hid, and has emptied none; inside an insertion it goes on to place or to fail accordingly |
| ClockCalls.InsertNeverPasses | src/clock/clock_cache.cc:373-405 | while a copy of its key stays visible in one slot, an insertion, its erasure and second placement included, does not get past that slot |
| ClockCalls.InsertedBeforeStays | src/clock/clock_cache.cc:219-241 | an insertion that succeeds while a copy stays visible has put its entry before that copy on the path of the key |
| ClockCalls.HeldEntryStays | src/clock/clock_cache.cc:249-271 | a step of any thread leaves the entry of a slot as it is while some thread holds that slot |
| ClockCalls.LookupFindsForemost | src/clock/clock_cache.cc:190-217 | a lookup ends at the slot that shows the key all the while, if no slot before it on the path ever does, whatever the other threads do |
| ClockSolo.UndisturbedErase | src/clock/clock_cache.cc:243-287 | an erasure that nobody disturbs, from any state other threads may have left, frees every unpinned copy of the key, hides every pinned one, changes no other content, and answers true if and only if there was no copy or an unpinned one |
| ClockSoloSweep.SoloSweepStep | src/clock/clock_cache.cc:289-332 | step by step, a sweep that nobody disturbs goes through the table, the charges and the counts of the class's eviction |
| ClockSoloSweep.SoloSweepEnds | src/clock/clock_cache.cc:312-320 | when it settles, table, freed charge and entries, pinned entries counted and hand are those of `ClockSweep.EvictionOf` |
| ClockSoloPlace.PlaceStep | src/clock/clock_cache.cc:373-405 | a placement that nobody disturbs ends in the first empty slot of its path, before any copy, or at the first copy, before any empty slot, or at the full turn |
| ClockSoloInsert.UndisturbedInsert | src/clock/clock_cache.cc:219-241 | an insertion that nobody disturbs, from any state, ends as Insert of the class does: on the table its eviction leaves, in the first empty slot before any copy, or there after the erasure of the copies; or it fails for the reasons the class gives |
| ClockSoloInsert.SuccessIsPlaceable | src/clock/clock_cache.cc:228-236 | those two ends exclude each other: it succeeds if and only if the eviction freed enough and an empty slot comes first on the path or some copy is unpinned |
| ClockSoloLookup.UndisturbedLookup | src/clock/clock_cache.cc:190-217 | a lookup that nobody disturbs is at the first copy on the path or on its way there, and changes nothing in sight |
| ClockSoloLookup.UndisturbedMiss | src/clock/clock_cache.cc:207-217 | it can only miss if no slot shows the key |
| ClockSoloLookup.InsertedIsFound | src/clock/clock_cache.cc:190-241 | after an undisturbed insertion that succeeded, from any state, an undisturbed lookup of the key finds the slot just filled |
| ClockSafety.CleanStepKeepsInv | src/clock/clock_cache.cc:185-437 | every step of every thread keeps all ledgers: displacements, ownership, references, charge, occupancy and deleters |
| ClockSafety.StepKeepsInvExactly | src/clock/clock_cache.cc:249-281 | a step keeps the invariant if and only if it is not a stray decrement that hits a shareable slot or a zero count |
| ClockSafety.NoStepIsSkipped | src/clock/clock_cache.cc:351-371 | in a state that satisfies the invariant every step accesses a slot of the table, so the machine skips none |
| ClockRuns.StrayDecrementIsReachable | src/clock/clock_cache.cc:279-281 | two clean runs from the empty cache after which the stray decrement breaks the reference ledger |
| ClockRuns.ProgramReachesBoth | src/clock/clock_cache.cc:249-281 | on the program's own table one of them takes a reference from a published entry, the other one from an empty slot, whose word then reads as visible |
| ClockSchedules.UndisturbedRunIsClean | src/clock/clock_cache.cc:249-281 | if no publication and no emptying hits a slot with a stray increment, every decrement is clean and all ledgers hold at the end |
| ClockSchedules.UndisturbedFromStart | src/clock/clock_cache.cc:185-437 | the same for runs from the empty cache with any number of threads |
| ClockSchedules.AdjacentPairIsClean | src/clock/clock_cache.cc:249-281 | the increment and the decrement of an erasure taken as adjacent steps are clean in every state |
| ClockSchedules.PairedRunIsClean | src/clock/clock_cache.cc:249-281 | all ledgers hold after every run in which each stray decrement follows its increment at once |
| ClockHits.CountersStayInField | src/clock/clock_cache.cc:30-40 | with at most 57 threads, in every clean run, hits of an entry in service stay between 0 and 2000 plus the threads, references between 0 and loans plus threads, so the word keeps its fields apart |
| HitExcess.AddKeeps | src/clock/clock_cache.cc:34-40 | a hit above the maximum, added while other corrections are outstanding, keeps what is to be taken back no more than the counter, for at most 57 threads |
| HitExcess.TakeKeeps | src/clock/clock_cache.cc:30-32 | so does a correction that comes late, in any order |
| ClockHitRuns.CrowdUnderflows | src/clock/clock_cache.cc:34-40 | with 58 threads or more there is a clean run of lookups that takes the hits of a visible entry below zero |
| ClockHitRuns.HitsNeverBorrowIff | src/clock/clock_cache.cc:34-40 | no clean run takes the hits of an entry in service below zero if and only if there are at most 57 threads |
| ClockSafety.InitialInv | src/clock/clock_cache.cc:147-154 | the empty cache with any number of idle threads satisfies every ledger |
| ClockSafety.RunKeepsInv | src/clock/clock_cache.cc:185-437 | every ledger holds after every run without such a stray decrement |
| ClockSafety.UsageStaysInBounds | src/clock/clock_cache.cc:407-437 | in every such run usage lies between the charges of the resident entries and the capacity, and occupancy is at least their number: neither underflows |
| ClockRoom.RoomIsLeft | src/clock/clock_cache.cc:219-241 | after every clean run the entries, and all slots in use, stay within the occupancy limit; below the table length that leaves some slot empty |
| ClockRoom.StepKeepsRoom | src/clock/clock_cache.cc:407-437 | every step keeps slots in use plus entitled insertions within the limit: an insertion let in above it must empty a slot before it may fill one |
| ClockSafety.LookupNeverMisses | src/clock/clock_cache.cc:190-217 | if one entry for the key stays visible while a lookup runs, the lookup does not miss, whatever the other threads do |
| ClockSafety.LookupIsWaitFree | src/clock/clock_cache.cc:350-371 | each own step of a lookup ends it or lowers a rank of at most six times the length |
| ClockEffort.SweepIsWaitFree | src/clock/clock_cache.cc:289-332 | every own step of an eviction's sweep ends it or lowers a rank bounded by the rounds of three turns times the work of a round |
| ClockEffort.SweepsAreShort | src/clock/clock_cache.cc:289-332 | from the empty cache, in every clean run, a sweep takes fewer own steps than that bound, whatever the other threads do |
| ClockProgress.PlaceIsWaitFree | src/clock/clock_cache.cc:373-405 | each own step of a placement, its rollback included, ends it or lowers a rank of at most six times the length |
| ClockProgress.EraseStepsOrRetries | src/clock/clock_cache.cc:243-287 | each own step of an erasure ends it, lowers a rank, or is a swap it lost because the word had changed or for no reason |
| ClockProgress.ErasesAreShort | src/clock/clock_cache.cc:258-273 | in every clean run an erasure under way has taken fewer own steps than length * (length + 11) and the swaps it has lost together |
| ClockProgress.UndisturbedEraseEnds | src/clock/clock_cache.cc:243-287 | an erasure that nobody disturbs and whose swaps do not fail for no reason ends within that bound, from any state other threads may have left |
| ClockSafety.FoundEntryHasKey | src/clock/clock_cache.cc:197-202 | a find hands out a counted loan on a resident entry that carries the key looked up |
| ClockSafety.LoanProtects | src/clock/clock_cache.cc:113-145 | no step of any thread changes or removes the entry of a slot on loan |
| ClockSafety.LoanedEntrySurvives | src/clock/clock_cache.cc:185-214 | from a lookup to its release the entry keeps key, charge and value, unfreed, over any run |
| ClockSafety.QuiescentIsSettled | src/clock/clock_cache.cc:219-241 | with no operation in flight all counters are exactly those of the resident entries, as tear-down requires, and every value was deleted except those resident |
| ClockIndex.PlaceKeepsIndex | src/clock/clock_cache.cc:387-394 | counting up along the path and filling its end keeps every counter exact |
| ClockIndex.ReclaimKeepsIndex | src/clock/clock_cache.cc:334-341 | emptying a slot and rolling its path back keeps every counter exact |
| ClockIndex.AdjustedBack | src/clock/clock_cache.cc:377-394 | the rollback of a placement undoes its displacements exactly |
| ClockIndex.ZeroEndsPath | src/clock/clock_cache.cc:213-213 | no resident entry of a key lies beyond a zero counter of its path, so stopping there is sound |
| ClockIndex.RoomLeft | src/clock/clock_cache.cc:219-223 | fewer residents than slots leave an unoccupied slot |
| ClockIndex.ThreeTurns | src/clock/clock_cache.cc:295-317 | a clock hand that moved three lengths met every slot at least three times |
| ClockObject.ClockCache.constructor | src/clock/clock_cache.cc:147-154 | a new cache is empty and satisfies the invariant of all operations |
| ClockObject.ClockCache.Rollback | src/clock/clock_cache.cc:334-341 | exactly the counters on the path before the slot drop by one |
| ClockObject.ClockCache.HitIncr | src/clock/clock_cache.cc:30-40 | one more hit, never above 2000, and no other field changes |
| ClockObject.ClockCache.Lookup | src/clock/clock_cache.cc:190-217 | succeeds if and only if some slot shows the key, returns the newest visible copy and the first on the path, and adds one loan, one reference and one hit there |
| ClockObject.ClockCache.Release | src/clock/clock_cache.cc:185-188 | takes back exactly one loan and one reference |
| ClockObject.ClockCache.EraseAt | src/clock/clock_cache.cc:248-283 | frees an unpinned copy with charge, place and displacements, hides a pinned one, leaves the rest |
| ClockObject.ClockCache.Erase | src/clock/clock_cache.cc:243-287 | afterwards no slot shows the key; every other slot keeps its content; true if and only if there was no copy or an unpinned one |
| ClockObject.ClockCache.TryInsert | src/clock/clock_cache.cc:58-107 | takes an empty slot, reports a visible copy, and otherwise leaves the slot as it was |
| ClockObject.ClockCache.DoInsert | src/clock/clock_cache.cc:373-405 | takes the first empty slot of the path before any visible copy; succeeds if and only if there is such a slot; failing, it leaves the whole table as it was |
| ClockObject.ClockCache.ClockUpdate | src/clock/clock_cache.cc:113-145 | takes an unpinned cold or hidden entry, cools a visible one, counts a pinned one, which over a whole sweep makes the count in `ClockHand.EvictionStopsFirst`; what it should add to the sum moves its copy of the address instead |
| ClockDecrement.IntendedDeltaDiffers | src/clock/clock_cache.cc:324-329 | with `k >= 6` entries of 2000 hits under the hand the average, when it is first used, would be the whole part of `k * 1999 / 5000`, at least 2, where the unwritten sum gives 1 |
| ClockSweep.StoredIsPlain | src/clock/clock_cache.cc:320-331 | with the sum unwritten the stored decrement is the minimum, at least 1, once the hand has moved 5000 positions, and the old one before |
| ClockSweep.DataOfTurn | src/clock/clock_cache.cc:110-141 | within one turn of the hand, which entries are freed and which pinned ones are met does not depend on the decrement |
| ClockHand.PassedExactly | src/clock/clock_cache.cc:113-145 | what the hand makes of a slot it visits any number of times: empty and pinned slots stay, a hidden entry goes at once, a visible one loses the decrement a visit and goes with the first visit that finds no hits |
| ClockHand.NewEntryOutlivesThree | src/clock/clock_cache.cc:14-14 | a new entry outlives three visits that take one hit each, and not a fourth |
| ClockHand.EvictionStopsFirst | src/clock/clock_cache.cc:303-320 | the eviction ends with the first round after which enough charge is gone from the table, the hand has passed three turns, or the pinned entries met are 30 times the entries gone and one more; it has counted exactly the visits of the hand to slots pinned before, and freed exactly what is gone |
| ClockHand.EvictedExactly | src/clock/clock_cache.cc:289-332 | unless it stores another decrement than it began with, an eviction leaves in each slot what so many visits of the hand make of it |
| ClockDecrement.LateDelta | src/clock/clock_cache.cc:323-329 | after its first use even a written sum covers four slots only, and gives 1 or the minimum |
| ClockDecrement.StoredDeltaIff | src/clock/clock_cache.cc:289-332 | the program stores the decrement that a written sum would give if and only if the hand does not move exactly 5000 positions or the average over the first 4996 does not exceed 1 or the minimum |
| ClockDecrement.CooledIsIntended | src/clock/clock_cache.cc:129-137 | on a table as long as the hand has moved, that sum can be read off the table the eviction began with |
| ClockDecrement.EndsAtFirstUse | src/clock/clock_cache.cc:311-331 | if nothing is freed at the first 4996 positions and enough at the next four, the hand moves exactly 5000 positions |
| ClockHeat.Prime | src/clock/clock_cache.cc:185-287 | insertions, lookups, an erasure and releases on a new cache lead to six entries of 2000 hits, a hidden one in slot 4996, and no place left |
| ClockHeat.LosesAverage | src/clock/clock_cache.cc:219-241 | on such a cache one more insertion moves the hand exactly 5000 positions and stores 1, where the same eviction with the sum written stores 2 |
| ClockObject.FirstTurnFrees | src/clock/clock_cache.cc:110-141 | during the first turn over a table of unpinned entries with hits, the hand frees nothing and meets no pinned entry |
| ClockObject.ClockCache.Evict | src/clock/clock_cache.cc:289-332 | reports exactly the charge and entries it freed, touches no pinned entry, and as pinned entries seen the visits of the hand to slots pinned before; ends with the first round after which the request is met, three turns are done, or 30 pinned entries were met for every entry freed and one more; is exactly the function `ClockSweep.EvictionOf` of the table, the hand and the decrement; takes more than a turn if all entries are unpinned and have hits; once the hand has reached the clock bound every unpinned entry with at most two hits is gone; the stored hit decrement is the minimum, at least 1, if and only if the hand moved 5000 positions, and the old one otherwise |
| ClockObject.ClockCache.EvictForCharge | src/clock/clock_cache.cc:407-437 | settles the reservation on every branch, evicts nothing if the charge and the place fit; otherwise asks for the part of the charge beyond the capacity, or for 1 if only a place is short, and stops with the first round that has freed it or has another reason to; and succeeds if and only if what the eviction left has room for the charge and, if places were short, an entry was freed |
| ClockObject.ClockCache.InsertReserved | src/clock/clock_cache.cc:228-236 | succeeds if and only if an empty slot comes first on the path or some visible copy is unpinned |
| ClockObject.ClockCache.Insert | src/clock/clock_cache.cc:219-241 | succeeds if and only if, on the table the eviction left (the old one if the entry fits, and otherwise what `ClockSweep.EvictionOf` makes of it), the entry fits and can be placed; then it is the newest copy and first on its path; otherwise it does not fit or every visible copy was pinned unless evicted; pinned entries stay; an entry that fits and whose first slot is empty changes that slot alone; the invariant holds |
| ClockObject.ClockCache.InsertThenLookup | src/clock/clock_cache.cc:190-241 | the next lookup of the key returns the entry just inserted, once on loan |
| ClockObject.ClockCache.Destroy | src/clock/clock_cache.cc:156-183 | from any settled table without loans, tear-down frees every entry and brings all displacements, usage and occupancy to zero |
| ClockObject.LookupMissed | src/clock/clock_cache.cc:213-213 | a search that ended at a zero counter or at the full turn has seen every visible copy |
| ClockObject.LookupFound | src/clock/clock_cache.cc:197-202 | the first visible copy on the path carries the latest insertion time of all copies |
| ClockObject.EraseEnds | src/clock/clock_cache.cc:246-286 | a search for erasure that stops at a zero counter has treated every copy the table had |
| ClockObject.PlacedNewest | src/clock/clock_cache.cc:373-405 | placing before every visible copy keeps copies ordered newest first along the path |
| ClockObject.InsertPlaced | src/clock/clock_cache.cc:228-236 | a placement settles the reserved charge and place, on top of any eviction and erasure before it |
| ClockObject.ThreeTurnsEvict | src/clock/clock_cache.cc:125-141 | an unpinned entry with at most two hits does not survive three visits |
| ClockObject.InsertedIsFound | src/clock/clock_cache.cc:190-241 | the copy a lookup meets first is the one just inserted |
| ClockObject.MaskedAll | src/clock/clock_cache.cc:177-182 | once every slot is emptied, exact counters are zero counters |
| QueueProofs.InitialInv | src/util/queue.h:15-23 | the constructed queue satisfies the protocol invariant |
| QueueProofs.StepKeepsInv | src/util/queue.h:26-98 | every step of any producer or consumer keeps it: each slot has one ticket, at most one thread, and the value of its ticket |
| QueueProofs.RunKeepsInv | src/util/queue.h:26-98 | it holds after every run |
| QueueProofs.StepRefinesFifo | src/util/queue.h:39-42 | the abstract FIFO changes exactly at the successful head and tail swaps: a push appends its value, a pop removes the front |
| QueueProofs.PopReturnsTicketValue | src/util/queue.h:93-97 | a pop returns the value its ticket was given, and no ticket is read twice |
| QueueProofs.RefusedPush | src/util/queue.h:45-47 | a push is refused if and only if head is at its position and the ticket one turn before is not recycled |
| QueueProofs.RefusedPushMeansFull | src/util/queue.h:45-47 | a refused push met a full queue if and only if no consumer is at work in that slot |
| QueueProofs.RefusedPop | src/util/queue.h:82-85 | a pop is refused if and only if tail is at its position and the ticket there is not published |
| QueueProofs.RefusedPopMeansEmpty | src/util/queue.h:82-85 | a refused pop met an empty queue if and only if no producer is at work in that slot |
| QueueProofs.QuietPushRefusedIffFull | src/util/queue.h:45-47 | with nothing else in flight a push is refused if and only if the queue is full |
| QueueProofs.QuietPopRefusedIffEmpty | src/util/queue.h:82-85 | with nothing else in flight a pop is refused if and only if the queue is empty |
| QueueCalls.PushStep | src/util/queue.h:26-60 | whatever a push is about to do, it is refused if and only if it stands at its sequence load, at the head, and the ticket one turn before is not recycled; it succeeds if and only if it publishes; otherwise it goes on with the same value |
| QueueCalls.PopStep | src/util/queue.h:63-98 | whatever a pop is about to do, it is refused if and only if it stands at its sequence load, at the tail, whose ticket is not published; it succeeds if and only if it recycles; otherwise it goes on |
| QueueCalls.CommitsOnce | src/util/queue.h:26-98 | each call takes effect exactly once, by a refusal, by appending its value or by removing the front |
| QueueCalls.Linearizes | src/util/queue.h:26-98 | every run is a legal history of a FIFO, ends with its contents, and every call answers what the history says |
| QueueRuns.QuietPushSucceeds | src/util/queue.h:26-60 | with nothing else in flight and a place left, a push appends its value and answers true |
| QueueRuns.QuietPopSucceeds | src/util/queue.h:63-98 | with nothing else in flight and a value there, a pop removes and answers the front |
| QueueRuns.RefusedPushNeedNotMeanFull | src/util/queue.h:45-47 | a reachable state of a queue of two slots that refuses a push while it holds one element |
| QueueRuns.RefusedPopNeedNotMeanEmpty | src/util/queue.h:82-85 | a reachable state that refuses a pop while it holds a value |
| QueueRuns.OneSlotOverflows | src/util/queue.h:31-58 | with capacity one, two pushes in a row succeed and leave head two ahead of tail |
| QueueRuns.BoundHoldsExactly | src/util/queue.h:100-106 | for any number of threads, head never runs ahead of tail by more than the capacity if and only if the capacity is at least two |
| TaggedPtr.GettersReadTag | src/hash_skip/ptr_util.h:20-28 | address, version and mark are read back as packed |
| TaggedPtr.PackTagInjective | src/hash_skip/ptr_util.h:15-16 | comparing words compares address, version and mark |
| TaggedPtr.MarksRefine | src/hash_skip/ptr_util.h:23-24 | marking and unmarking leave address and version alone |
| TaggedPtr.VersionRefines | src/hash_skip/ptr_util.h:29-32 | setting any version, also a negative one, keeps 14 bits and leaves address and mark alone |
| TaggedPtr.IncrDecrRefine | src/hash_skip/ptr_util.h:33-34 | counting up and down wraps modulo 2^14, and one undoes the other |
| TaggedPtr.PackPtrRefines | src/hash_skip/ptr_util.h:36-43 | packing a raw address gives exactly the three fields asked for |
| SharedPtr.StepKeepsInvExactly | src/hash_skip/atomic_shared_ptr.h:30-81 | a step keeps all counts and ownerships exact if and only if it is not a load counting itself into a full version field |
| SharedPtrRuns.AlwaysSafeIff | src/hash_skip/atomic_shared_ptr.h:29-81 | from any initial value, no thread touches a box that is not allocated, in any run, if and only if there are at most 2^14 threads |
| SharedPtrRuns.CopiesDeletedBox | src/hash_skip/atomic_shared_ptr.h:41-43 | with 2^14 + 1 threads there is a run in which a load copies a deleted box |
| SharedPtrRuns.FewThreadsStaySound | src/hash_skip/atomic_shared_ptr.h:29-81 | with at most 2^14 threads every run keeps the accounts, or has made every thread a reader so that nobody can misread the wrapped count |
| SharedPtrRuns.AlwaysExactIff | src/hash_skip/atomic_shared_ptr.h:29-38 | from any initial value, all accounts are exact in every run if and only if there are fewer than 2^14 threads |
| SharedPtrRuns.OneLoadTooMany | src/hash_skip/atomic_shared_ptr.h:33-38 | with 2^14 threads there is a run whose last load finds the field full |
| SharedPtr.FewLoadsNeverOverflow | src/hash_skip/atomic_shared_ptr.h:29-38 | with at most 2^14 - 1 loads in flight no load finds the field full |
| SharedPtr.InitialInv | src/hash_skip/atomic_shared_ptr.h:16-19 | both constructors satisfy the invariant and hold their value |
| SharedPtr.RunKeepsInv | src/hash_skip/atomic_shared_ptr.h:30-81 | the version counts the loads between their two swaps, the mark the stores between theirs, and every box has one owner, after every run |
| SharedPtr.NeverFaults | src/hash_skip/atomic_shared_ptr.h:41-43 | no thread ever reads or deletes a box that is not allocated, although addresses are reused |
| SharedPtr.MarkExcludesLoads | src/hash_skip/atomic_shared_ptr.h:57-60 | the mark is set if and only if one store is between its two writes, and then no load is between its two |
| SharedPtr.DeleteIsSafe | src/hash_skip/atomic_shared_ptr.h:75-79 | a deleted box is not current, belongs to no other thread and is not being copied |
| SharedPtr.QuiescentOwnsOneBox | src/hash_skip/atomic_shared_ptr.h:75-81 | at rest the current box is the only one left: nothing leaks |
| SharedPtrHistory.StepCommits | src/hash_skip/atomic_shared_ptr.h:72-73 | the register changes exactly at the storing write, which answers the value it replaced; a load answers the value at its last swap |
| SharedPtrHistory.CommitsOnce | src/hash_skip/atomic_shared_ptr.h:30-81 | each operation takes effect exactly once between its call and its return |
| SharedPtrHistory.Linearizes | src/hash_skip/atomic_shared_ptr.h:30-81 | every run is a legal history of a register with exchange, ends with its value, and every thread answers what the history says |
| SkipLevels.LessIsTransitive | src/util/skiplist.h:41-41 | the string comparison is transitive; with `LessIsStrict` and `LessIsTotal` a strict total order |
| SkipLevels.LookupAtRank | src/util/skiplist.h:45-51 | the map has a key exactly if the node at its rank holds it, with that value |
| SkipLevels.InsertAtRank | src/util/skiplist.h:78-82 | a node put at the rank of a new key keeps the order and adds exactly that key |
| SkipLevels.RemoveAtRank | src/util/skiplist.h:100-106 | taking the node at the rank out keeps the order and removes exactly that key |
| SkipLevels.NextAfterInsert | src/util/skiplist.h:79-82 | where every link of every level leads after an insertion of any height |
| SkipLevels.NextAfterRemove | src/util/skiplist.h:100-105 | where every link of every level leads after a removal |
| SkipLevels.LevelIsSortedSublist | src/util/skiplist.h:40-44 | each level holds exactly the nodes that reach it, in key order |
| SkipLevels.LevelsNest | src/util/skiplist.h:40-44 | each level is a sublist of the one below, and levels no node reaches are empty |
| SkipListObject.SkipList.constructor | src/util/skiplist.h:22-26 | a new list is the empty map |
| SkipListObject.SkipList.FindPredecessors | src/util/skiplist.h:57-64 | on each level in use the search stops at the last node before the place of the key |
| SkipListObject.SkipList.Get | src/util/skiplist.h:38-52 | answers exactly what the map holds |
| SkipListObject.SkipList.LinkNode | src/util/skiplist.h:79-82 | after the linking loop every level of the list with the new node is linked in order |
| SkipListObject.SkipList.Insert | src/util/skiplist.h:54-83 | the map is updated at the key and nowhere else, for every level the coin gives |
| SkipListObject.SkipList.UnlinkNode | src/util/skiplist.h:100-105 | stopping at the first level that does not lead to the node unlinks it from every level |
| SkipListObject.SkipList.LowerLevels | src/util/skiplist.h:108-110 | the highest level in use is not empty again, and no node exceeds it |
| SkipListObject.SkipList.Erase | src/util/skiplist.h:85-112 | true if and only if the map had the key; the map loses that key and no other |
| SkipListObject.SkipList.LinksAscend | src/util/skiplist.h:40-44 | every link leads to the next node that reaches its level, with a greater key |
| SkipListObject.SkipList.TopLevelIsExact | src/util/skiplist.h:71-76 | levels from the current maximum on are empty, the one below it is not |
| AtomicSkipProofs.StepKeepsInv | src/hash_skip/atomic_skiplist.h:68-110 | every step of every thread keeps all levels ordered, all searches valid, unpublished nodes private and the node counter exact |
| AtomicSkipProofs.RunKeepsInv | src/hash_skip/atomic_skiplist.h:68-208 | this holds after every run |
| AtomicSkipProofs.BottomIsExact | src/hash_skip/atomic_skiplist.h:175-185 | where level 0 steps over a key, it meets the key exactly if the list has it |
| AtomicSkipProofs.FindEnds | src/hash_skip/atomic_skiplist.h:168-188 | a finished search is found if and only if the list has the key at its last load, and its lowest successor is then that node |
| AtomicSkipProofs.BottomKeeps | src/hash_skip/atomic_skiplist.h:96-99 | linking a prepared node behind its predecessor keeps every level ordered and loses no node |
| AtomicSkipProofs.SetLinkKeeps | src/hash_skip/atomic_skiplist.h:101-105 | a link of an upper level, even one that skips nodes, and a mark on level 0 keep every level ordered |
| AtomicSkipSafety.LevelsStayOrdered | src/hash_skip/atomic_skiplist.h:68-208 | in every reachable state every level runs from head to tail over level-0 nodes with strictly ascending keys |
| AtomicSkipSafety.BottomIsOrder | src/hash_skip/atomic_skiplist.h:113-132 | following level 0 from the head gives exactly the nodes the history lists, in order |
| AtomicSkipSafety.KeysAreUnique | src/hash_skip/atomic_skiplist.h:76-84 | no key is held by two nodes of level 0 |
| AtomicSkipSafety.NodesStay | src/hash_skip/atomic_skiplist.h:134-142 | over any run level 0 loses no node and no node changes its key or height; what becomes of handles and marks is `AtomicSkipDeletions.NodeStep` |
| AtomicSkipDeletions.MarkStep | src/hash_skip/node.h:58-75 | in every run, whatever a deletion is about to do: it wins if and only if it swaps the unmarked word it expects for the marked one, answers nothing if and only if it meets a mark, and a winner answers the handle the node holds and leaves none |
| AtomicSkipDeletions.NodeStep | src/hash_skip/node.h:58-79 | in every run a handle changes only by an insertion that updates it or a deletion that empties it, and a mark is set only by the deletion that wins it and cleared only by a link behind the node |
| AtomicSkipDeletions.OneWins | src/hash_skip/node.h:66-71 | of all deletions that meet a node unmarked at most one wins, and exactly one once it is marked, as long as nothing is linked behind it (a link clears the mark) |
| AtomicSkipDeletions.EndedMeansOneWon | src/hash_skip/node.h:60-74 | once a deletion that met the node unmarked has ended, exactly one has won |
| AtomicSkipDeletions.DeletionAnswers | src/hash_skip/node.h:70-73 | a deletion that ends has won and answers exactly the handle the node held at its last step, which is gone; or it met a mark, answers nothing and changes nothing |
| AtomicSkipDeletions.GetStep | src/hash_skip/atomic_skiplist.h:45-66 | whatever a lookup is about to do: nothing is the answer of its search if and only if the list has no node of the key, of its mark load if and only if the node is marked, and otherwise it answers the handle of the node at its last step |
| AtomicSkipLevels.CountedIsLinked | src/hash_skip/atomic_skiplist.h:101-106 | when an insertion counts its node, it has linked it on every level the node has, whatever swaps failed on the way |
| AtomicSkipSafety.LinkCommits | src/hash_skip/atomic_skiplist.h:96-99 | level 0 changes only at a successful bottom link, whose key was absent and is present from then on |
| AtomicSkipSafety.SearchIsExact | src/hash_skip/atomic_skiplist.h:55-84 | a lookup or insertion proceeds with the node of its key if and only if the list has the key at the last load of its search |
| AtomicSkipSafety.InsertionStep | src/hash_skip/atomic_skiplist.h:77-99 | each step of an insertion keeps its handle, hands it over to a listed node, or loses it with the node of a failed swap |
| AtomicSkipSafety.HandleArrivesIffNoLinkIsLost | src/hash_skip/atomic_skiplist.h:87-99 | over any run, an insertion still has the handle it was given if and only if it has lost no swap on level 0 |
| AtomicSkipSafety.FinishedInsertion | src/hash_skip/atomic_skiplist.h:77-99 | the last step of an insertion puts a handle into the listed node of its key: its own if and only if it has lost no swap on level 0, none otherwise |
| AtomicSkipHistory.StepCommits | src/hash_skip/atomic_skiplist.h:40-110 | without deletions the map from keys to handles changes exactly at the steps that put a handle or link a node, and each call reports what it held |
| AtomicSkipHistory.CommitsOnce | src/hash_skip/atomic_skiplist.h:40-110 | a call takes effect exactly once |
| AtomicSkipHistory.Linearizes | src/hash_skip/atomic_skiplist.h:40-110 | every run without deletions is a legal history of the map, ends with its contents, and every thread answers what the history says; an insertion that lost a swap counts as putting nothing |
| AtomicSkipHistory.LookupAnswersMap | src/hash_skip/atomic_skiplist.h:40-66 | a lookup answers what the map holds for its key at its last step |
| AtomicSkipRuns.BothInsertionsAreLost | src/hash_skip/atomic_skiplist.h:77-99 | for any key and number of threads from two there is a run in which a swap is lost, both insertions return, nobody deletes and a lookup answers nothing |
| AtomicSkipRuns.Search | src/hash_skip/atomic_skiplist.h:171-184 | a search that meets nothing smaller than its key descends one level a step and records the head and its links |
| AtomicSkipSafety.NeverFaults | src/hash_skip/atomic_skiplist.h:171-184 | no thread follows a null link or reads beyond a node's levels |
| AtomicSkipSafety.QuiescentCount | src/hash_skip/atomic_skiplist.h:106-106 | with no insertion in flight the counter is the number of nodes between head and tail |
| SkipCells.InsertThenGet | src/hash_skip/atomic_skiplist.h:68-84 | for one thread, a lookup sees an insertion if and only if the key's node, if there is one, is not marked |
| SkipCells.InsertElsewhere | src/hash_skip/atomic_skiplist.h:200-208 | an insertion changes the answer for another key if and only if its link unmarks a node that was given a handle after its deletion |
| SkipCells.ReinsertedIsHidden | src/hash_skip/atomic_skiplist.h:61-84 | a key deleted and inserted again is not found |
| SkipCells.NeighbourRevives | src/hash_skip/atomic_skiplist.h:200-208 | inserting a key right behind it brings the hidden value back |
| SkipCells.DeleteThenGet | src/hash_skip/node.h:58-75 | a deleted key answers nothing and no other answer changes |
| SkipCells.CompactedAnswers | src/hash_skip/atomic_skiplist.h:113-132 | dropping marked nodes and empty handles changes no answer |
| AtomicSkipObject.AtomicSkipList.constructor | src/hash_skip/atomic_skiplist.h:18-25 | a new list is head and tail on every level |
| AtomicSkipObject.AtomicSkipList.Find | src/hash_skip/atomic_skiplist.h:168-188 | the search returns, per level, a predecessor and the word it holds, and finds the key if and only if level 0 has it |
| AtomicSkipObject.AtomicSkipList.Get | src/hash_skip/atomic_skiplist.h:45-66 | answers the handle of the key's unmarked node, and nothing otherwise |
| AtomicSkipObject.AtomicSkipList.Insert | src/hash_skip/atomic_skiplist.h:68-110 | level 0 gains the key or its new handle, whatever level is drawn, and the answer is the handle replaced |
| AtomicSkipObject.AtomicSkipList.MarkDeleted | src/hash_skip/atomic_skiplist.h:135-142 | the node is marked and emptied once, its charge returned and counted if positive |
| AtomicSkipObject.AtomicSkipList.GetNode | src/hash_skip/atomic_skiplist.h:55-66 | finds the key's node if and only if it is there and not marked |
| AtomicSkipObject.InsertIsHiddenAndRevived | src/hash_skip/atomic_skiplist.h:45-142 | on a new list, after inserting, deleting and inserting a key a lookup does not find it, and after inserting the next key it does |
| Compaction.CompactedGrows | src/hash_skip/cache.h:181-184 | inserting the next visible cell, or passing over a hidden one, compacts one cell more |
| Compaction.FewMarkedExactly | src/hash_skip/cache.h:177-177 | a bucket is left alone if and only if ten times its marked nodes are fewer than three times its nodes, the program's 0.3 |
| Compaction.CopyVisible | src/hash_skip/atomic_skiplist.h:113-132 | the walk with its callback puts exactly the visible cells into the new list |
| Compaction.CompactOneBucket | src/hash_skip/cache.h:175-187 | the new list holds exactly the visible cells of the old one in order, and every lookup answers as before; nothing is built if and only if there is no bucket or ten times the marked nodes are fewer than three times all nodes |

## Left out

- AtomicSkipHistory.Linearizes: says nothing of runs with deletions, where an insertion over a deleted key is hidden already for one thread (`SkipCells.InsertThenGet`) and a deletion empties its node one step after it has marked it; what each deletion and lookup does in them is `AtomicSkipDeletions`.
- ClockHits.CountersStayInField: stray references on empty slots are not bounded, because lookups that hit an empty slot leave theirs there.
- ClockObject.ClockCache.Evict: the clock pointer is unbounded, so the run of the hand across 2^64 is not modelled.
- ClockObject.ClockCache.constructor: requires a power-of-two length; the source accepts any, and then some walk misses a slot (`Walk.CoversExactlyPow2`). It takes the length and the occupancy limit as they are; a length derived from the value size does not match the array of `options.length` slots, and the load factor is floating point.
- ClockSafety.StepKeepsInvExactly: the counters of the meta word are unbounded in the machine; that they refine the 30-bit fields while they fit is `MetaWord.CountersRefine`, and when they fit `ClockHits.CountersStayInField`.
- QueueRuns.BoundHoldsExactly: head, tail and sequence numbers are unbounded; 2^63 pushes are not modelled, and neither is Size, which reads two counters at different times.
- AtomicSkipSafety.LevelsStayOrdered: says nothing of which nodes an upper level holds, because a link made after a failed swap keeps the successor first found and may skip nodes.
- Weak memory ordering: all atomic accesses are sequentially consistent, also those the source relaxes.
- The 64-bit overflow of usage plus charge and the 32-bit width of the displacement counters.
- The adaptive hit decrement in the CLOCK machine: every value of at least one is allowed there, so all that holds for the code's choice is proved for any choice.
- FindSlot is a template over three functions; in the class its loop is written out in Lookup, Erase and DoInsert, as the compiler would expand it.
- In the classes, which one thread uses alone, compare-and-swap does not fail spuriously.
- Deleters are recorded as having run, not executed; allocation always succeeds.
- Keys and hashes: MurmurHash is any function, a hashed key is any pair of words.
- The hit counters of skip-list nodes, the destructors of the skip lists and of the atomic shared pointer, printing, and the distribution of random levels.
- The address bit 47 and user addresses above 2^47.
- The LRU cache of the repository, the sharding by key, and the memory accounting, hit decay, worker threads and bucket generations of the hash-skip cache.
- Compaction while other threads insert into the old bucket: their nodes may be missed by the new one.

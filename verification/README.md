# SECLogger and Unity: a verified model

SECLogger is a logging library in C: callers push messages onto a queue, one thread pulls
them and writes them to part files of day folders, and old days and parts are removed to keep
within two limits.  Unity is the C test framework whose sources are kept beside it.  This project models the stateful core of both and proves what that core keeps.  Check it
with `dafny verify dfyconfig.toml`.

| files | what they model |
|---|---|
| `LogTree`, `Retention`, `RetentionReach`, `RetentionLoop` | the folder tree (date to part numbers to sizes), the scan for the oldest day, one retention round as a function, the days whose turn comes, and the loop as a relation on its rounds |
| `LogGrowth`, `Logger` | how the tree grows, and the logger as a class: the retention loop, the per-message rotation, start-up, whole runs |
| `FileNames` | how days and parts are named, and the `strtok`, `strrchr` and `atoi` reading that undoes it |
| `LogQueue` | the linked list with head and tail, refining a sequence, with a ledger of what was freed |
| `QueueProtocol`, `QueueTheorems`, `QueueDrain`, `QueueRefinement` | the lock, condition variable and stop flag as a state machine over single actions of many producers, one consumer and one stopper; invariants and theorems over every run; how the queue drains; the list's operations as the protocol's steps |
| `HeapModel`, `HeapInvariant`, `HeapRuns`, `StaticHeap` | Unity's static test heap: the calls as functions on bytes, what each keeps, whole runs, and the byte array with its three static variables proved against the functions |
| `NumberPrinter`, `FloatScaling`, `FloatLayout`, `FloatPrinter` | the decimal printers |
| `NumbersWithin` | the wrapping "within delta" comparison, for one pair and for arrays |
| `NameFilter`, `TestRunner` | the test-name filter, and the runner with its flags, counters and long jumps |
| `UndoLog`, `FixtureOptions` | the fixture's pointer log and its command line |
| `Arithmetic`, `Bytes`, `Decimal`, `Text`, `Wrappers` | shared helpers |

Where the source changes state, the model is a class or a method with loops, proved against a
function; the laws are lemmas about the functions and invariants of the methods.

## What is worth knowing

In five places the sources are not what their text suggests.

* The scan for the oldest day (`init.c:283-291`) compares year, month and day one after the
  other and mixes fields of different folders.  It finds the oldest day in every directory order
  exactly when that day is least in each field separately (`LogTree.ScanExact`), and names an
  existing folder in every order under the same condition (`LogTree.ScanStaysInside`).  A turn of
  a month or a year breaks it as soon as the later day is smaller in a field, for example
  31 January and 1 February.  A round that is asked for, by days or by files, can be wasted exactly
  then (`RetentionReach.NeverStuckExactly`).  The loop can run into its 1000-round guard if and
  only if this happens to some day whose turn comes: a day such that, with all earlier ones gone,
  there are still too many days or files, and that is not least in each field among the days from
  it on (`RetentionLoop.GuardFiresExactly`).  That can be after some days have gone
  (`RetentionLoop.GuardAfterDrop`) and with no day too many (`RetentionLoop.GuardForFiles`).
  Otherwise the loop takes one round for each such day, in every order.
* The file being written is nevertheless never removed, with no assumption on dates, gaps between
  part numbers or directory order (`Retention.RoundSparesOpen`, `Logger.CheckAndDeleteNumberFile`).
  It rests on the check at start-up that the total limit is above the limit for one file.
* The number of files to drop is a truncated quotient, so the `ceil` around it does nothing.  The
  total limit is met after retention exactly when the files of the days kept met it already or it
  is a multiple of the limit for one file (`LogTree.TotalMetExactly`, and for the loop
  `RetentionLoop.LimitsMet`); otherwise it is overrun by less than one file, as by three files of
  two megabytes with a limit of five (`LogTree.TotalMissedExample`).
* A `realloc` that fails is documented in the source (`unity_memory.c:198`) to keep the old block.
  The block is gone exactly when it could grow in place and the forced-failure countdown stands at
  zero (`HeapRuns.FailedReallocLosesBlock`); `HeapRuns.BlockLost` gets there by calls.
* The float printer says it rounds ties to even (`unity.c:422`).  It tests parity before the
  integer part is added, so it does so except, exactly, for an odd integer and a half that already
  has all its significant digits (`FloatScaling.Scale`, `FloatScaling.OddTieExample`).

## Hypotheses

* A folder tree holds day folders and part files only; `.` and `..` add nothing.
* `max_mb_for_file` is at least 1 (the source divides by it).
* For meeting both limits, oldest first and in so many rounds (`RetentionReach.WellKept`): each
  day whose turn comes is least in each field among the days from it on, no field is above those
  of 3000-12-31, and the parts of a folder are contiguous and at most 100000.  Dates that are
  comparable in all three fields at once always qualify (`RetentionReach.ComparableInOrder`).
  Removing only, ending, and sparing the open file need none of this.
* The clock never goes back: no folder is dated after today.  Opens succeed except where a
  parameter `opens` says otherwise; removals of existing files succeed.
* For the queue: the consumer's and the stopper's locks succeed, a producer's may fail; a push does
  not begin once the queue is being freed, and freeing begins when no push is under way.
* For the heap: 64-bit words, lowest byte first, alignment 8, and no sum of sizes wraps `size_t`.
* For the float printer: exact reals in place of `UNITY_DOUBLE`; for the whole printer, magnitudes
  a double can hold.
* For both limits after every message (`Logger.TidyRun`): dates that go forward in each field, at
  most 997 days kept, and part numbers that stay within 100000.
* For the runner: the `setjmp` build, and tests that touch Unity's state only through its calls.

## Model

| member | source | states |
|---|---|---|
| LogTree.ReadDir | SECLogger/SimpleEasyCLogger/src/init.c:266-295 | a directory listing yields every entry once, in an unspecified order |
| LogTree.ScanGives | SECLogger/SimpleEasyCLogger/src/init.c:258-302 | for any listing: the year is the least of 3000 and all years, the month the least of 12 and those of entries whose year was no later than any before, the day the least of 31 and those whose month was compared and no later than any compared before |
| LogTree.ScanFieldsUnique | SECLogger/SimpleEasyCLogger/src/init.c:258-302 | that description leaves one result for each listing |
| LogTree.ScanFindsLeast | SECLogger/SimpleEasyCLogger/src/init.c:258-302 | a folder minimal in year, month and day at once is named whatever the listing order, and it is the oldest |
| LogTree.ScanSparesNewest | SECLogger/SimpleEasyCLogger/src/init.c:258-302 | the scan never names the newest folder unless it is the only one, for any dates and any order |
| LogTree.ScanExact | SECLogger/SimpleEasyCLogger/src/init.c:258-302 | every listing order gives the oldest day if and only if that day is least in each field separately |
| LogTree.ScanMissesOldest | SECLogger/SimpleEasyCLogger/src/init.c:283-291 | any later date with a smaller month or day, listed first, makes the scan miss the oldest day |
| LogTree.ScanNamesAbsent | SECLogger/SimpleEasyCLogger/src/init.c:283-291 | such a later date listed first and the oldest day second make the scan name a folder that does not exist |
| LogTree.ScanStaysInside | SECLogger/SimpleEasyCLogger/src/init.c:258-302 | every listing order names an existing folder if and only if the oldest day is least in each field separately |
| LogTree.ScanAcross | SECLogger/SimpleEasyCLogger/src/init.c:283-291 | any two days, the later one smaller in some field, have an order for which neither is named |
| LogTree.ScanAcrossNewYear | SECLogger/SimpleEasyCLogger/src/init.c:283-291 | witness: 31 December and 1 January |
| LogTree.ScanAcrossMonths | SECLogger/SimpleEasyCLogger/src/init.c:283-291 | witness within a year: 31 January and 1 February |
| LogTree.ExcessPositive | SECLogger/SimpleEasyCLogger/src/init.c:328-331 | the truncated quotient is positive exactly when the files overrun the total limit by a whole file |
| LogTree.Truncates | SECLogger/SimpleEasyCLogger/src/init.c:330-331 | the quotient is the one towards zero, for any signs, so a total just below the limit gives 0 and not -1 |
| LogTree.ExcessAfterDrop | SECLogger/SimpleEasyCLogger/src/init.c:362-367 | the count kept by decrementing equals the count computed afresh from the files left |
| LogTree.ExcessLeavesTwo | SECLogger/SimpleEasyCLogger/src/init.c:107-110 | with a total limit above the limit for one file, at least two files are never asked to go |
| LogTree.TotalMetExactly | SECLogger/SimpleEasyCLogger/src/init.c:328-331 | dropping the quotient's number of files meets the total limit if and only if it was met before or is a multiple of the limit for one file, and always to within a file |
| LogTree.TotalMissedExample | SECLogger/SimpleEasyCLogger/src/init.c:328-331 | three files of two megabytes all stay with a limit of five |
| RetentionReach.RoundSpec | SECLogger/SimpleEasyCLogger/src/init.c:382-397 | on a well-kept tree a round, in any listing order, drops exactly the oldest day when there are too many; otherwise only oldest files go, as many as the excess falls by, until it is zero or the day is gone; the running count stays exact, and exactly one day fewer is left to deal with |
| Retention.RoundDropsDay | SECLogger/SimpleEasyCLogger/src/init.c:305-325 | with too many days a round leaves exactly the tree without its oldest day, and the count of files to drop stays exact |
| Retention.RoundTrims | SECLogger/SimpleEasyCLogger/src/init.c:328-371 | otherwise the lowest parts of the oldest day go until the excess is gone or the day is, one file for each unit of excess and none without |
| Retention.TrimRange | SECLogger/SimpleEasyCLogger/src/init.c:362-367 | removing the lowest numbers leaves a contiguous folder with that many files fewer |
| Retention.TrimExactly | SECLogger/SimpleEasyCLogger/src/init.c:328-371 | in any folder, gaps included, exactly the numbers from the lowest on, as many as are to go or are there, are removed, the folder only when that leaves nothing and the counts agree, and nothing else changes |
| Retention.RoundExactly | SECLogger/SimpleEasyCLogger/src/init.c:382-397 | on any tree: with too many days exactly the named folder goes, if it is there, otherwise that trim happens |
| Retention.TrimLimits | SECLogger/SimpleEasyCLogger/src/init.c:328-331 | a trim stops at the total limit: it never drops a file the limit did not ask for |
| Retention.RoundStuck | SECLogger/SimpleEasyCLogger/src/init.c:305-371 | when the named folder does not exist a round removes nothing, and with too many days only then |
| RetentionReach.NeverStuckExactly | SECLogger/SimpleEasyCLogger/src/init.c:305-371 | with too many days, or too many files in contiguous parts, every listing order removes something if and only if the oldest day is least in each field separately |
| RetentionReach.ComparableInOrder | SECLogger/SimpleEasyCLogger/src/init.c:283-291 | dates comparable in all fields at once are in order, whatever the limits |
| RetentionReach.InOrderShrinks | SECLogger/SimpleEasyCLogger/src/init.c:305-371 | removing anything brings no new day within reach, so what is in order stays so |
| RetentionReach.RoundWorks | SECLogger/SimpleEasyCLogger/src/init.c:305-371 | when the oldest day is least in each field, a round under any order deals with exactly that day: its turn is over, and every other day's is as before |
| RetentionReach.StuckAcrossNewYear | SECLogger/SimpleEasyCLogger/src/init.c:382-397 | witness: around New Year a listing order wastes a round, whatever the two days hold |
| Retention.NewestDaysCount | SECLogger/SimpleEasyCLogger/src/init.c:305-325 | the newest k days are k days, or all |
| Retention.GoalStays | SECLogger/SimpleEasyCLogger/src/init.c:328-371 | no round changes how many files are to stay: those of the newest days the limit allows, less their excess |
| Retention.NewestFilesUnique | SECLogger/SimpleEasyCLogger/src/init.c:328-371 | there is only one choice of the newest n files, so count and order say which files stay |
| Retention.RoundSparesOpen | SECLogger/SimpleEasyCLogger/src/init.c:305-371 | no round removes the highest part of the newest day, its folder, or changes what is left, for any dates, part numbers and order |
| LoggerCore.Logger.GetNumTotalFileLog | SECLogger/SimpleEasyCLogger/src/init.c:232-255 | the count over all folders is the number of (day, part) pairs |
| LoggerCore.Logger.GetOldDirectory | SECLogger/SimpleEasyCLogger/src/init.c:258-302 | the loop yields, for the complete listing it read, the fields that ScanGives describes, and the number of day folders |
| LoggerCore.Logger.DeleteOldFolder | SECLogger/SimpleEasyCLogger/src/init.c:305-325 | above the day limit the named folder goes whole, and a missing one is reported; the running day count stays exact |
| LoggerCore.Logger.LowestPart | SECLogger/SimpleEasyCLogger/src/init.c:335-355 | the lowest part number up to 100000 and the number of parts, for a missing folder too |
| LoggerCore.Logger.RemoveParts | SECLogger/SimpleEasyCLogger/src/init.c:362-367 | exactly the parts numbered in the given range go |
| LoggerCore.Logger.DeleteOldFile | SECLogger/SimpleEasyCLogger/src/init.c:328-371 | as many lowest-numbered parts go as the limit asks for and the folder holds, the folder too when it is emptied |
| RetentionLoop.LoopStep | SECLogger/SimpleEasyCLogger/src/init.c:382-397 | a round keeps the loop invariant: only removals, open file spared, and on well-kept trees an exact count of rounds and of the excess |
| RetentionLoop.RoundKept | SECLogger/SimpleEasyCLogger/src/init.c:382-397 | on a well-kept tree each round deals with one day whose turn has come, the loop goes on exactly while there is too much, and the number of files to stay is as it was |
| RetentionLoop.LoopEnd | SECLogger/SimpleEasyCLogger/src/init.c:382 | leaving the loop means the day limit is met and, on a well-kept tree, that exactly the newest files in number to stay are left, after exactly the rounds needed |
| RetentionLoop.LoopResults | SECLogger/SimpleEasyCLogger/src/init.c:374-398 | after any number of rounds, whatever the orders: only removals, open file spared; on a well-kept tree oldest first, never more rounds than needed, and at the end exactly those and the exact set of files |
| RetentionLoop.RoundsExactly | SECLogger/SimpleEasyCLogger/src/init.c:382-397 | some directory order makes the loop take n or more rounds (n at least 2) if and only if n days are within reach or one of them is out of order, for trees of any number of days |
| RetentionLoop.GuardFiresExactly | SECLogger/SimpleEasyCLogger/src/init.c:381-396 | below 1000 days, the guard can fire if and only if some day whose turn comes is not least in each field among the days from it on |
| RetentionLoop.StuckOnSecond | SECLogger/SimpleEasyCLogger/src/init.c:382-397 | of three days the oldest may go and the loop get stuck on the next |
| RetentionLoop.GuardAfterDrop | SECLogger/SimpleEasyCLogger/src/init.c:382-397 | witness: 1 January, 31 January and 1 February with one day to keep |
| RetentionLoop.GuardForFiles | SECLogger/SimpleEasyCLogger/src/init.c:382-397 | witness with no day too many: 31 January and 1 February with three files |
| RetentionLoop.GuardExactly | SECLogger/SimpleEasyCLogger/src/init.c:381-396 | special case: with too many days the rounds can all be used up on an unchanged tree if and only if the oldest day is not least in each field separately |
| LoggerCore.Logger.CheckAndDeleteNumberFile | SECLogger/SimpleEasyCLogger/src/init.c:374-398 | the code makes such a run of rounds; on any tree it ends, only removes, spares the open file; on a well-kept one: exactly the rounds needed, so the guard cannot fire below 1000 days, at most max_file_day days, and the files left are exactly the newest N, N being the files of the newest max_file_day days less their excess; the total limit is met in exactly the cases of TotalMetExactly and missed by less than a file; an error is reported exactly when a round found too many days and nothing to delete |
| LoggerCore.Logger.Trim | SECLogger/SimpleEasyCLogger/src/init.c:418-419 | with no day limit nothing is removed; otherwise what is left is what the retention loop leaves, on well-kept trees exactly the newest files the limits allow |
| LoggerCore.Logger.Round | SECLogger/SimpleEasyCLogger/src/init.c:383-390 | the body of the loop is such a round, under the order its listing happened to have |
| LoggerCore.Logger.CreateFolderDateAndFileName | SECLogger/SimpleEasyCLogger/src/init.c:186-229 | today's folder exists and the chosen part is at least every part there and within the size limit; a new number is taken only for the first part or after a full one |
| LoggerCore.Logger.VerifyLogDay | SECLogger/SimpleEasyCLogger/src/init.c:400-439 | afterwards the open file is the highest part of today's newest folder and within the size limit; a new day starts at part 1, a full file moves to the next number, and what is left is what retention leaves of the files before and the new one; otherwise nothing changes; a failed open is reported and removes nothing |
| LoggerCore.Logger.NextPart | SECLogger/SimpleEasyCLogger/src/init.c:422-434 | a full file is followed by the next number, empty, highest and open; of the others what retention leaves is left |
| LoggerCore.Logger.WriteLine | SECLogger/SimpleEasyCLogger/src/logger.c:83-86 | only the open file grows, by the line and its newline; it stays open and highest, and met limits stay met |
| LoggerCore.Logger.StartFile | SECLogger/SimpleEasyCLogger/src/init.c:407-421 | today's file is open, highest of all that were there, and within the limit; every other file is as retention leaves it; a failed open removes nothing |
| LogGrowth.OpenedKept | SECLogger/SimpleEasyCLogger/src/init.c:186-229 | opening today's next part keeps parts contiguous and adds at most today's folder |
| LogGrowth.OpenedExactly | SECLogger/SimpleEasyCLogger/src/init.c:186-229 | opening leaves every file as it was and adds at most the opened one, empty |
| LogGrowth.WithSizeExactly | SECLogger/SimpleEasyCLogger/src/logger.c:83-86 | writing touches the size of one file and nothing else |
| LogGrowth.OpenedFits | SECLogger/SimpleEasyCLogger/src/init.c:186-229 | what opening makes of a tree with comparable days, retention can deal with |
| LogGrowth.WriteKeepsTidy | SECLogger/SimpleEasyCLogger/src/logger.c:83-86 | writing changes no count, so both limits stay met |
| LoggerCore.Logger.LoggerInitFileDay | SECLogger/SimpleEasyCLogger/src/init.c:60-120 | limits with no room for two files are refused and change nothing; otherwise today's last part, at least every part that was there, is continued, or the next one begun only if that is full, and of the earlier files what retention leaves is left; errors come in the source's order |
| LoggerCore.Logger.LoggerGeneral | SECLogger/SimpleEasyCLogger/src/logger.c:35-89 | a message is written when both levels allow it, to the right file, which was within the limit before; other files are those there were, or after a roll those retention leaves; the open one grows by the line and its newline |
| LoggerCore.Logger.Run | SECLogger/SimpleEasyCLogger/src/logger.c:35-89 | any run of messages with a forward clock is a chain of such steps, and every file is as it was or over the limit by at most one line |
| LoggerCore.Logger.TidyRun | SECLogger/SimpleEasyCLogger/src/logger.c:35-89 | in any run whose dates go forward in each field, at every state there are at most max_file_day days and less than one file over the total limit |
| FileNames.PartRoundTrip | SECLogger/SimpleEasyCLogger/src/init.c:341-346 | reading the part number back from a formatted file name gives that number, for every number |
| FileNames.DashedSplits | SECLogger/SimpleEasyCLogger/src/init.c:278-281 | splitting a dated folder name gives the three texts it was joined from |
| FileNames.FolderRoundTrip | SECLogger/SimpleEasyCLogger/src/init.c:278-300 | the date read from a folder name is the date it was named after, and joining the texts again gives the name |
| FileNames.NamesDistinct | SECLogger/SimpleEasyCLogger/src/init.c:186-229 | different days have different folders and different parts different files |
| FileNames.NamesRecognised | SECLogger/SimpleEasyCLogger/src/init.c:245 | names the logger makes pass its own prefix and suffix tests |
| FileNames.NameExample | SECLogger/SimpleEasyCLogger/src/init.c:202-223 | part 12 of 5 January 2024 is named logger-2024-01-05-p12.log |
| LogQueueList.LogQueue.PushAndSignal | SECLogger/SimpleEasyCLogger/src/queue.c:115-157 | success appends one fresh node and frees nothing; a missing queue, a failed lock or a failed allocation frees both buffers handed over and changes nothing |
| LogQueueList.LogQueue.Append | SECLogger/SimpleEasyCLogger/src/queue.c:139-151 | the linking keeps head, tail and chain in step with a sequence that grows at its end |
| LogQueueList.LogQueue.Take | SECLogger/SimpleEasyCLogger/src/queue.c:174-187 | after a stop nothing, otherwise the oldest record, leaving the rest in order and the tail reset when empty |
| LogQueueList.LogQueue.Empty | SECLogger/SimpleEasyCLogger/src/queue.c:93-113 | either pointer being null means exactly that nothing is queued |
| LogQueueList.LogQueue.Destroy | SECLogger/SimpleEasyCLogger/src/queue.c:45-72 | for each queued node its time buffer, its message and itself are freed, three in a row and oldest first, then the queue, and nothing else; on an error nothing is freed |
| LogQueueList.DestroyQueueLoggerNode | SECLogger/SimpleEasyCLogger/src/queue.c:74-79 | the time buffer, the message buffer and the node are freed, in this order, and nothing else |
| QueueTheorems.StepKeeps | SECLogger/SimpleEasyCLogger/src/queue.c:81-188 | every action of every thread keeps lock discipline, stop knowledge, wake-up, order, place and freeing invariants |
| QueueTheorems.RunKeeps | SECLogger/SimpleEasyCLogger/src/queue.c:81-188 | the invariants hold at every state of every interleaving |
| QueueTheorems.NoLostWakeUp | SECLogger/SimpleEasyCLogger/src/queue.c:170-172 | a consumer parked without a pending signal, with the lock free, implies an empty queue and no stop, spurious wake-ups allowed |
| QueueTheorems.HeldOnceAtWait | SECLogger/SimpleEasyCLogger/src/queue.c:165-172 | the recursive lock is held exactly once at the wait, in spite of the nested lock of the emptiness test, so waiting sets it free |
| QueueTheorems.MutualExclusion | SECLogger/SimpleEasyCLogger/src/queue.c:115-157 | a producer in its critical section excludes every other thread from theirs |
| QueueTheorems.NullOnlyAfterStop | SECLogger/SimpleEasyCLogger/src/queue.c:170-177 | a pull ends empty-handed, and the thread ends, only after a stop |
| QueueTheorems.FirstInFirstOut | SECLogger/SimpleEasyCLogger/src/queue.c:115-188 | at every reachable state accepted pushes are what was pulled followed by what is queued |
| QueueTheorems.NothingPulledAfterStop | SECLogger/SimpleEasyCLogger/src/queue.c:174-177 | once the stop flag is set it stays set and nothing is pulled |
| QueueTheorems.EverythingFreedOnce | SECLogger/SimpleEasyCLogger/src/init.c:34-57 | after join and destroy every buffer handed to a push, failed ones included, and every node has been freed exactly once, and nothing else |
| QueueTheorems.NeverFreedTwice | SECLogger/SimpleEasyCLogger/src/queue.c:45-79 | at no state of any run has anything been freed twice |
| QueueTheorems.HolderMoves | SECLogger/SimpleEasyCLogger/src/queue.c:81-188 | whoever holds the lock can take its next step |
| QueueTheorems.ConsumerMoves | SECLogger/SimpleEasyCLogger/src/queue.c:170-172 | with the lock free and work queued or a stop requested, the consumer can go on without another signal |
| QueueTheorems.ShutdownMoves | SECLogger/SimpleEasyCLogger/src/init.c:123-131 | after a stop request some thread can always go on until everything is torn down |
| QueueTheorems.ShutdownEnds | SECLogger/SimpleEasyCLogger/src/init.c:123-131 | after a stop request and without new pushes, no interleaving takes more steps than a bound known at the request |
| QueueDrain.StretchEnds | SECLogger/SimpleEasyCLogger/src/queue.c:115-188 | without new pushes and spurious wake-ups no interleaving takes more steps than a bound known at its start, stop or no stop |
| QueueDrain.DrainedWhenStill | SECLogger/SimpleEasyCLogger/src/queue.c:159-188 | when nothing is left to do and no stop was requested, the consumer sleeps on an empty queue, every accepted message was pulled, and every message handed over is freed |
| QueueRefinement.Link | SECLogger/SimpleEasyCLogger/src/queue.c:139-151 | linking a node in the list is the protocol's linking step on its queue |
| QueueRefinement.TestEmpty | SECLogger/SimpleEasyCLogger/src/queue.c:93-113 | the list's emptiness test is what the protocol's consumer is told |
| QueueRefinement.TakeOne | SECLogger/SimpleEasyCLogger/src/queue.c:174-187 | the end of a pull is the protocol's taking step, with the same message or none |
| QueueRefinement.SetStop | SECLogger/SimpleEasyCLogger/src/queue.c:81-91 | setting the flag is the protocol's stop step |
| QueueRefinement.FreePulled | SECLogger/SimpleEasyCLogger/src/init.c:44-46 | freeing a pulled node frees what the protocol's step counts as freed |
| QueueRefinement.FailPush | SECLogger/SimpleEasyCLogger/src/queue.c:115-137 | both failing pushes free what the protocol's steps count as freed |
| QueueRefinement.TearDown | SECLogger/SimpleEasyCLogger/src/queue.c:45-72 | tearing the list down frees what the protocol's stopper frees, node by node in its order |
| HeapInvariant.MallocKeeps | dependencies/Unity/extras/memory/src/unity_memory.c:67-105 | a success adds one intact, aligned block above all live ones; a failure changes the countdown at most |
| HeapInvariant.ReleaseKeeps | dependencies/Unity/extras/memory/src/unity_memory.c:116-136 | the other live blocks stay disjoint and intact; the top moves to the block's start exactly when it was the top block |
| HeapInvariant.FreeKeeps | dependencies/Unity/extras/memory/src/unity_memory.c:138-153 | freeing a live block left alone reports no overrun and keeps the others |
| HeapInvariant.OverrunExact | dependencies/Unity/extras/memory/src/unity_memory.c:107-114 | with the size field intact, an overrun is seen exactly when the guard word or one of the four marker bytes was altered |
| HeapInvariant.OverrunReported | dependencies/Unity/extras/memory/src/unity_memory.c:138-184 | free and realloc report exactly that, whatever else in memory was overwritten; the block is released all the same, and an overrun ends the realloc with nothing returned |
| HeapInvariant.PokeKeeps | dependencies/Unity/extras/memory/src/unity_memory.c:107-114 | writes inside a live payload keep all blocks intact, so they never cause a report |
| HeapInvariant.CallocKeeps | dependencies/Unity/extras/memory/src/unity_memory.c:155-161 | a cleared block is live, all zeros, and nothing below it changed |
| HeapInvariant.GrowKeeps | dependencies/Unity/extras/memory/src/unity_memory.c:185-195 | growth in place returns the same pointer with the payload untouched, and fails exactly when the countdown is zero |
| HeapInvariant.MoveKeeps | dependencies/Unity/extras/memory/src/unity_memory.c:197-201 | growth elsewhere carries the payload over and gives up the old block; a failure keeps it |
| HeapRuns.ReallocKeeps | dependencies/Unity/extras/memory/src/unity_memory.c:163-202 | on every successful path the first min(old, new) bytes are preserved, other payloads and the invariant kept, the count right |
| HeapRuns.ReallocExact | dependencies/Unity/extras/memory/src/unity_memory.c:163-202 | a block that is large enough is returned and nothing changes; a request for nothing frees it; the result is missing exactly for that or for a growth that is refused; growth happens in place whenever the block is on top with room behind it, else at the top |
| HeapRuns.NullPointers | dependencies/Unity/extras/memory/src/unity_memory.c:138-168 | freeing a null pointer does nothing, and reallocating one is allocating |
| HeapRuns.ReallocInPlace | dependencies/Unity/extras/memory/src/unity_memory.c:185-195 | the in-place path cannot fail for space: the same pointer unless the countdown is zero |
| HeapRuns.FailedReallocLosesBlock | dependencies/Unity/extras/memory/src/unity_memory.c:185-198 | a failed realloc leaves the old block above the top of the heap, no longer allocated, exactly when it could grow in place and the countdown is zero |
| HeapRuns.BlockLost | dependencies/Unity/extras/memory/src/unity_memory.c:185-198 | witness by calls, on any heap with room: allocate, fail the next request, grow |
| HeapRuns.ApplySound | dependencies/Unity/extras/memory/src/unity_memory.c:67-202 | every call on live blocks keeps the layout and the block count |
| HeapRuns.RunSound | dependencies/Unity/extras/memory/src/unity_memory.c:67-202 | over every run of calls live blocks are disjoint, aligned, intact and below the top, the count is allocations minus releases, and no live block would report an overrun |
| HeapRuns.FreshHeapSound | dependencies/Unity/extras/memory/src/unity_memory.c:11-44 | all of that from the zeroed heap that every program starts with, of any size |
| HeapRuns.LeakExact | dependencies/Unity/extras/memory/src/unity_memory.c:15-28 | a leak is reported exactly when the number of live blocks differs from that at the test's start |
| HeapRuns.RunCounts | dependencies/Unity/extras/memory/src/unity_memory.c:75-80 | over any run of calls the countdown falls by the requests for memory, calloc and growing realloc included, and stops at zero |
| HeapRuns.FailsAfterCount | dependencies/Unity/extras/memory/src/unity_memory.c:30-33 | after a countdown of n exactly n requests of any kind are tried and every later malloc, calloc and growing realloc fails; a tried one of any kind fails only for want of room |
| HeapRuns.NeverForced | dependencies/Unity/extras/memory/src/unity_memory.c:75-87 | over any run of calls forced failure stays off once off, and malloc, calloc and growing realloc fail exactly for want of room |
| HeapRuns.RunNest | dependencies/Unity/extras/memory/src/unity_memory.c:116-136 | freeing in reverse order of allocation puts the top and the count back exactly and keeps all bytes below, whichever allocations fail |
| StaticHeapClass.StaticHeap.Malloc | dependencies/Unity/extras/memory/src/unity_memory.c:67-105 | the in-place code refines the function: bytes, top, count and countdown |
| StaticHeapClass.StaticHeap.DiffersFromEnd | dependencies/Unity/extras/memory/src/unity_memory.c:113 | the string comparison, which may stop early, is inequality of the four marker bytes |
| StaticHeapClass.StaticHeap.Overrun | dependencies/Unity/extras/memory/src/unity_memory.c:107-114 | the check of guard word and marker at the recorded size |
| StaticHeapClass.StaticHeap.ReleaseMemory | dependencies/Unity/extras/memory/src/unity_memory.c:116-136 | refines the function: the count falls and only a top block gives its space back |
| StaticHeapClass.StaticHeap.Free | dependencies/Unity/extras/memory/src/unity_memory.c:138-153 | a null pointer does nothing; otherwise the block is released, overrun or not |
| StaticHeapClass.StaticHeap.Calloc | dependencies/Unity/extras/memory/src/unity_memory.c:155-161 | refines the function: allocated and cleared, or unchanged but for the countdown |
| StaticHeapClass.StaticHeap.Realloc | dependencies/Unity/extras/memory/src/unity_memory.c:163-202 | refines the function on all six paths |
| StaticHeapClass.StaticHeap.EndTest | dependencies/Unity/extras/memory/src/unity_memory.c:21-28 | a leak is reported when the count is not zero, and forced failure is switched off |
| NumberPrinter.InitialDivisor | dependencies/Unity/src/unity.c:256-262 | the largest power of ten not above the number, found without leaving 64 bits |
| NumberPrinter.UnityPrintNumberUnsigned | dependencies/Unity/src/unity.c:254-270 | the output is the canonical numeral of the number |
| NumberPrinter.UnityPrintNumber | dependencies/Unity/src/unity.c:239-250 | the output decodes to the number for every 64-bit value, the least included, a minus sign and the numeral of the magnitude |
| Decimal.NumeralMeans | dependencies/Unity/src/unity.c:254-270 | a numeral is all digits, has no leading zero and denotes its number |
| Decimal.NumeralUnique | dependencies/Unity/src/unity.c:254-270 | any digit string without leading zero is the numeral of what it denotes |
| FloatScaling.ScaleSmall | dependencies/Unity/src/unity.c:384-392 | below one, scaling ends in range and keeps the value exactly |
| FloatScaling.ScaleLarge | dependencies/Unity/src/unity.c:393-401 | above the largest scaled value, scaling ends in range and keeps the value exactly |
| FloatScaling.ScaleMiddle | dependencies/Unity/src/unity.c:402-416 | in between, integer part and fraction together keep the value, with no 32-bit overflow, and the integer part is even unless it had all digits at once |
| FloatScaling.RoundToEven | dependencies/Unity/src/unity.c:418-425 | the nearest integer, the even one on a tie |
| FloatScaling.RoundedError | dependencies/Unity/src/unity.c:427-433 | rounding errs by at most half a unit of the exponent before the carry, and the carry changes no value |
| FloatScaling.Scale | dependencies/Unity/src/unity.c:384-433 | for every positive number: ends, stays in 32 bits, lands in [min_scaled, max_scaled), within half of ten to the exponent before the carry; ties go to even exactly unless the number is odd, a half, and full-length |
| FloatScaling.OddTieExample | dependencies/Unity/src/unity.c:421-427 | 100000001.5 goes to an odd number |
| FloatLayout.TruncateZeros | dependencies/Unity/src/unity.c:439-444 | zeros after the point go, and what they were worth is kept in the scale |
| FloatLayout.FillDigits | dependencies/Unity/src/unity.c:446-452 | the digits of the number in reverse, padded to one before the point, never past the 16-byte buffer |
| FloatLayout.PrintBuffer | dependencies/Unity/src/unity.c:454-462 | the digits forwards with a point before the last decimals of them |
| FloatLayout.DecodePlain | dependencies/Unity/src/unity.c:454-462 | text with a point, read independently, is its digits scaled down by the decimals |
| FloatLayout.DecodeExponent | dependencies/Unity/src/unity.c:464-489 | text with an exponent part, read independently, is that times the power of ten |
| FloatLayout.OneDigitBeforePoint | dependencies/Unity/src/unity.c:435-444 | stripped of zeros, a full-length number keeps exactly one digit before its point |
| FloatLayout.PrintScaled | dependencies/Unity/src/unity.c:435-489 | the text denotes exactly n times ten to the exponent; an exponent part is there exactly for exponents above 0 or below -(sig_digits + 3), with a sign and at least two digits; no zero trails the point or leads without need, and with an exponent part exactly one digit, not zero, stands before the point |
| FloatPrinter.ScaledExponent | dependencies/Unity/src/unity.c:384-433 | for doubles the exponent stays between -333 and 309, so three digits are enough |
| FloatPrinter.PlainExactly | dependencies/Unity/src/unity.c:435-437 | that condition on the exponent is one on the number: at least a ten-thousandth and below the largest scaled value |
| FloatPrinter.ScaledIsClose | dependencies/Unity/src/unity.c:384-433 | the scaled and rounded number is within half of ten to the e of the input, where ten to the e is the place of the last significant digit |
| FloatPrinter.UnityPrintFloat | dependencies/Unity/src/unity.c:334-491 | what is printed reads back as the input to within half a unit in the last of nine (seven) significant digits, exactly for whole numbers that fit, with a minus sign exactly for negative ones, and with an exponent part exactly when the number read back is below a ten-thousandth or at least the largest scaled value |
| NumbersWithin.DeltaExact | dependencies/Unity/src/unity.c:1331-1352 | for all operands the wrapping comparison fails exactly when the true distance exceeds delta, signed or unsigned by style |
| NumbersWithin.ElementsExact | dependencies/Unity/src/unity.c:1408-1500 | the same for array elements of each width, sign-extended or not on loading |
| NumbersWithin.Styles | dependencies/Unity/src/unity.c:1379-1477 | for each integer style the width in bytes and whether elements are signed, characters included; sizes other than 1, 2 and 8 are read as 4 |
| NumbersWithin.TrueValueIs | dependencies/Unity/src/unity.c:1408-1477 | an element of a signed style is its two's complement number, any other the plain one |
| NumbersWithin.BadMeans | dependencies/Unity/src/unity.c:1523-1528 | against an array each element has its own partner, against a single value all have that one |
| NumbersWithin.FirstOffending | dependencies/Unity/src/unity.c:1403-1529 | the walk reports the least element too far from its partner, or from the single expected value, and none otherwise |
| NumbersWithin.UnityAssertNumbersArrayWithin | dependencies/Unity/src/unity.c:1369-1530 | empty arrays and a single null pointer fail, equal pointers pass, otherwise the least offending index or a pass for all |
| NameFilter.IsStringInBiggerString | dependencies/Unity/src/unity.c:2176-2218 | nonzero exactly when the pattern starts with a star or its part up to the first terminator occurs in the name, and 2 exactly when that part ends at a colon |
| NameFilter.FilterMeans | dependencies/Unity/src/unity.c:2197-2209 | a star, comma, quote or colon after a pattern, with anything behind it, changes no verdict: the part before has to occur in the name, and only the colon shows in the result |
| TestRunner.BodyDecides | dependencies/Unity/src/unity.c:1958-2022 | the first call that jumps decides the verdict of a body, and never both flags are set |
| TestRunner.JumpsExactly | dependencies/Unity/src/unity.c:1329-1365 | the calls that jump are the ones that fail, ignore or pass outright, and checks whose true distance exceeds delta; which flag each leaves |
| TestRunner.FlagsStay | dependencies/Unity/src/unity.c:20-22 | a raised flag stays as it is, whatever calls follow |
| TestRunner.TestDecided | dependencies/Unity/src/unity.c:2027-2045 | a test's verdict is that of set-up and body, or of the tear-down when those raise no flag; never both failed and ignored |
| TestRunner.CountsAddUp | dependencies/Unity/src/unity.c:546-567 | passed, failed and ignored tests make up all tests |
| TestRunner.Unity.ConcludeTest | dependencies/Unity/src/unity.c:546-567 | exactly one of the three counts grows, by the verdict, and both flags are cleared |
| TestRunner.Unity.DefaultTestRun | dependencies/Unity/src/unity.c:2027-2045 | one more test, one tear-down, one more of the verdict's count, flags clear again |
| TestRunner.Unity.RunAll | dependencies/Unity/src/unity.c:2027-2098 | tests = PASS lines + failures + ignores, one tear-down a test, and the returned number is that of failed tests |
| UndoLog.UndoneAt | dependencies/Unity/extras/fixture/src/unity_fixture.c:171-179 | undoing newest first leaves each target with what its earliest entry recorded |
| UndoLog.SetUndone | dependencies/Unity/extras/fixture/src/unity_fixture.c:164-167 | setting a target changes nothing that an undo would give back |
| UndoLog.PointerStore.Set | dependencies/Unity/extras/fixture/src/unity_fixture.c:156-169 | logs and sets, or with a full store changes nothing and says so; what an undo would give is unchanged |
| UndoLog.PointerStore.UndoAllSets | dependencies/Unity/extras/fixture/src/unity_fixture.c:171-179 | every logged target holds its earliest recorded value, the rest of memory is unchanged, the store is empty |
| UndoLog.PointerStore.SetsThenUndo | dependencies/Unity/extras/fixture/src/unity_fixture.c:148-179 | any run of sets, aliased, repeated or refused, and then an undo restores all of memory |
| UndoLog.FirstEntryStays | dependencies/Unity/extras/fixture/src/unity_fixture.c:148-179 | later sets and writes past the log do not change what a logged target is restored to |
| UndoLog.FirstSetRestored | dependencies/Unity/extras/fixture/src/unity_fixture.c:148-179 | a target whose first set found room goes back to its value before that set, other writers notwithstanding |
| FixtureOptions.RepeatOfNumeral | dependencies/Unity/extras/fixture/src/unity_fixture.c:260-272 | the digit loop gives back a printed number exactly when it is below 2^32, and its remainder otherwise |
| FixtureOptions.ReadRepeat | dependencies/Unity/extras/fixture/src/unity_fixture.c:264-270 | wrapping at each step is the same as wrapping the number once |
| FixtureOptions.RepeatOfDigits | dependencies/Unity/extras/fixture/src/unity_fixture.c:260-272 | only the digits in front count, leading zeros included, as their value modulo 2^32 |
| FixtureOptions.UnityFixture.GetCommandLineOptions | dependencies/Unity/extras/fixture/src/unity_fixture.c:181-282 | the scan with its index is the recursive reading of the arguments from the defaults |
| FixtureOptions.OtherArguments | dependencies/Unity/extras/fixture/src/unity_fixture.c:193-280 | after any options: help and a missing filter stop the scan, a repeat takes the next argument if it starts with a digit and else means twice, an unknown argument changes nothing |
| FixtureOptions.NotAsked | dependencies/Unity/extras/fixture/src/unity_fixture.c:193-280 | an option whose flag is not among the arguments stays as it was |
| FixtureOptions.Unasked | dependencies/Unity/extras/fixture/src/unity_fixture.c:184-191 | without their flags nothing is verbose, silent or filtered, and tests are run once |
| FixtureOptions.RenderThen | dependencies/Unity/extras/fixture/src/unity_fixture.c:193-280 | after a command line for given options the scan goes on from exactly those options |
| FixtureOptions.RenderParses | dependencies/Unity/extras/fixture/src/unity_fixture.c:181-282 | any options can be asked for by a command line and come back as asked, for any filter texts |

## Left out

- Real files, directories, clock, console and `stat`: the folder tree, today's date and the success of opens are state and parameters; a failed `opendir` followed by `closedir` is taken to do nothing.
- The `logger_*` wrappers, message formatting and colours: formatting over `vsnprintf`, nothing that spans functions.
- Message delivery at shutdown: the file is closed before the consumer is joined, and a stop drops queued messages, so no claim that an accepted message is written.  A message is also kept from the file when the console's level is below it; `LoggerGeneral` states this as the code has it.
- LoggerCore.Logger.LoggerGeneral: needs an open file and opens that succeed, because what follows a failed open in the source is a close of a null file; the failed open itself is in `VerifyLogDay`.
- Starting without rotation (a file name given by the caller) and `set_level`: no interaction with the rest.
- C buffer sizes of the temporary name copies, and `int` overflow of file count times megabytes: sequences and unbounded integers.
- The `float` that holds the number of files to drop: an integer, exact up to the part numbers allowed.
- Failing locks of the consumer and the stopper, and a queue that could not be made: the protocol has failing locks and allocations of producers only.
- IEEE rounding, NaN and infinity in the float printer, and the build that rounds ties away from zero.
- Heap allocation through the standard library, and heaps of other word sizes.
- UnityStringArgumentMatches, detail strings, output text, hexadecimal printing and the float comparisons.
- The build without `setjmp`, and counters that wrap.
- Zero-length arrays compared by pointer (a build option); the default build fails them.

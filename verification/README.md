# Verified model of the warehouse inventory system

This project models the concurrent and the arithmetic core of the inventory system in Dafny and
proves what its design relies on: the PostgreSQL connection pool, the in-memory message broker, the
migration runner, the TTL cache, and the item store with its listing, identifiers and timestamps.

Concurrent components are written twice. The objects (`PoolObjects`, `BrokerObject`,
`Migration.Database`, `Cache.InMemoryCacheAdapter`, `ItemRepository.Repository`) are classes whose
methods follow the source statement by statement and are proved against functions on the stored
values. The models use the same functions in labelled steps, one for every point at which another
thread can run: `Enabled` says when a step may happen, `Do` what it does, `Legal` which sequences of
steps are runs. The main results are about all runs of any number of threads.

| file | contents |
|---|---|
| `Results.dfy`, `Powers.dfy`, `Bits.dfy` | Option and Result; powers of two; bitwise operators |
| `ConnectionPool.dfy` | shared fields, thread phases and steps of the pool monitor |
| `PoolSafety.dfy`, `PoolLiveness.dfy` | the invariant of the pool; what holds in all runs, who can be left asleep, what the destructor wakes |
| `PoolObjects.dfy`, `Backoff.dfy` | the pool and its move-only handles as objects; the retry loop |
| `MessageBroker.dfy`, `BrokerObject.dfy` | the broker under interleaving; the broker as an object |
| `FileOrder.dfy`, `Migration.dfy`, `PendingMigrations.dfy` | file order, concurrent runners, the merge |
| `Cache.dfy` | the cache against the history of its operations |
| `Uuid.dfy`, `Decimal.dfy`, `Calendar.dfy`, `TimeUtils.dfy` | identifiers, numbers, dates and timestamps as text |
| `Items.dfy`, `ItemStore.dfy`, `ItemRepository.dfy` | items and rows, the table under interleaving, the use cases as code |
| `QueryBuilder.dfy`, `PageCount.dfy`, `ListItems.dfy` | the two queries and their meaning, division of doubles, paging |

## Where the source does not do what one would expect

- A connection that is lost (closed while held, or not replaced when stale) is never replaced. Once
  all are lost every `acquire` sleeps for ever (`ExhaustionIsPermanent`, `ExhaustionHappens`).
- The pool's destructor sets its flag and notifies without the mutex. A thread between its test and
  its sleep is not woken; `ShutdownWakesAll` says exactly when.
- Once the doubled retry delay reaches 2^63 ms the pauses shrink (`BackoffSum`) and later vanish
  (`DelayVanishes`). With `max_retries` equal to the largest `size_t` the loop condition can never fail
  (`LoopEndsIff`).
- `unsubscribe` destroys a queue that a waiting consumer still refers to (`UnsubscribeSoundIff`,
  `DeadReferenceHappens`).
- `pending_migrations` agrees with `apply` only if the database sorts recorded names like the file
  list (`DifferenceIsPendingIff`).
- The cache's interface documents a zero time-to-live as "no expiration"; with a default it means the
  default, and a negative one means no expiration (`SetLifetime`).
- An update reads and writes in two transactions and can take back a change made in between
  (`UpdateIsAtomicIff`, `LostUpdateHappens`).
- What `save` and `update` return, and what is read later, has its times cut to milliseconds
  (`DecodeEncodeIff`).
- An error from a writing use case can hide a change, if the commit was in doubt or reading the returned
  row throws (`OnlyOwnRowChanges`).
- Digits after the dot of a timestamp are a number of milliseconds, so ".5" is read as five of them
  (`ParseStamp`), and the thirty-first of any month is accepted (`GetTimeReads`).
- The filter field `min_stock` is an upper bound of the stock (`ConditionsMeanFilter`).
- The offset of a page is a product of two ints. Where it does not fit, wrapping around brings an earlier
  page (`OffsetExactIff`, `PageWrapsAround`).
- The page count is exact up to 2^53 rows and wrong at 2^53 + 1 (`PageCountExact`, `PageForgotten`).

## Model

| member | source | states |
|---|---|---|
| PoolSafety.StepKeepsInv | src/infrastructure/database/connection_pool.cpp:123-162 | every step of acquire, release and the destructor keeps mutual exclusion, the counter, exclusivity, conservation and the wakeup bound |
| PoolSafety.NeverCorrupt | src/infrastructure/database/connection_pool.cpp:127-137 | after the wait, with no shutdown seen, the queue is not empty when popped and the counter not zero when decremented |
| PoolSafety.NoLostWakeupStep | src/infrastructure/database/connection_pool.cpp:125-162 | the bound on idle connections while a thread sleeps survives barging, spurious wakeups and the gap between push and notify |
| PoolLiveness.ReachableConserved | src/infrastructure/database/connection_pool.cpp:135-161 | in every run idle, owned and lost connections add up to those created |
| PoolLiveness.ReachableExclusive | src/infrastructure/database/connection_pool.cpp:135-161 | in every run no connection is in two threads, in a thread and the queue, or lost and in use |
| PoolLiveness.ReachableCounter | src/infrastructure/database/connection_pool.cpp:135-172 | m_available equals the queue length whenever the mutex is free, and an unlocked reader is at most one off |
| PoolLiveness.ReachableNoLostWakeup | src/infrastructure/database/connection_pool.cpp:125-162 | in every run, while a thread sleeps, each idle connection has a thread about to take it or to notify |
| PoolLiveness.ClosingRunsAreBounded | src/infrastructure/database/connection_pool.cpp:123-162 | calls in progress cannot keep each other busy for ever: their steps are bounded under every schedule |
| PoolLiveness.CanFinish | src/infrastructure/database/connection_pool.cpp:123-162 | from every state the calls in progress can be brought to an end |
| PoolLiveness.SleeperOnlyIfAllLost | src/infrastructure/database/connection_pool.cpp:123-162 | deadlock freedom: when nothing more can happen a thread sleeps only if every connection is lost |
| PoolLiveness.SomebodyCanMove | src/infrastructure/database/connection_pool.cpp:123-162 | while a thread sleeps and a connection is left, a step other than a wait is enabled; and one that does not give up a connection either is enabled now or as soon as the thread holding the mutex has gone to sleep |
| PoolLiveness.CallsEnd | src/infrastructure/database/connection_pool.cpp:123-162 | any run, then any schedule of the calls in progress: they end within nine steps a thread, and who still sleeps does so because all connections are lost |
| PoolLiveness.ExhaustionIsPermanent | src/infrastructure/database/connection_pool.cpp:140-146 | once all connections are lost no run ever hands one out again |
| PoolLiveness.ExhaustionHappens | src/infrastructure/database/connection_pool.cpp:51-59 | such a run exists with one connection and one client |
| PoolLiveness.ShutdownWakesAll | src/infrastructure/database/connection_pool.cpp:111-121 | the destructor's unlocked notification leaves nobody asleep in any continuation exactly if no thread stands between its test and its sleep |
| PoolLiveness.LateSleeperIsStranded | src/infrastructure/database/connection_pool.cpp:111-121 | who falls asleep after that notification is never notified again |
| PoolLiveness.StrandedWaiterHappens | src/infrastructure/database/connection_pool.cpp:111-129 | such a run exists |
| PoolObjects.ApplyConserves | src/infrastructure/database/connection_pool.cpp:18-59 | giving out, moving, move-assigning and destroying handles neither duplicates nor loses a connection |
| PoolObjects.HandlesStayExclusive | src/infrastructure/database/connection_pool.cpp:18-59 | over every sequence of such operations a connection stays in one handle, in the queue, or gone |
| PoolObjects.Pool.constructor | src/infrastructure/database/connection_pool.cpp:61-80 | the pool starts with one connection for each place that some attempt connects: all if all can, none if none can; an initial state of the model |
| PoolObjects.Pool.TakeFront | src/infrastructure/database/connection_pool.cpp:131-138 | under the mutex after the wait: an error on shutdown, else the front of the queue, and the counter follows |
| PoolObjects.Pool.Revive | src/infrastructure/database/connection_pool.cpp:140-148 | an open connection is passed on, a stale one is replaced if some attempt succeeds, else there is an error |
| PoolObjects.Pool.GiveBack | src/infrastructure/database/connection_pool.cpp:151-161 | null is ignored; otherwise the connection goes to the back of the queue and the counter follows |
| PoolObjects.Pool.Close | src/infrastructure/database/connection_pool.cpp:111-121 | the flag is set and the queue emptied |
| PoolObjects.PooledConnection.MoveFrom | src/infrastructure/database/connection_pool.cpp:23-28 | move construction takes everything and leaves the source empty |
| PoolObjects.PooledConnection.Release | src/infrastructure/database/connection_pool.cpp:51-59 | an open connection goes back to its pool, a closed one is cut off from it, a second release does nothing |
| PoolObjects.PooledConnection.MoveAssign | src/infrastructure/database/connection_pool.cpp:30-39 | the old connection is released, the other handle's taken; self-assignment does nothing |
| Backoff.CreateConnection | src/infrastructure/database/connection_pool.cpp:174-200 | the first success ends the attempts, which are at most max_retries + 1, and the time slept is that of the failures before; with the largest max_retries the counter wraps around |
| Backoff.LoopEndsIff | src/infrastructure/database/connection_pool.cpp:179-179 | without a success the loop condition fails at some time exactly if max_retries is not the largest size_t |
| Backoff.BackoffSum | src/infrastructure/database/connection_pool.cpp:177-195 | k sleeps last retry_delay * (2^k - 1) exactly if the last stays below 2^63 ms |
| Backoff.DelayVanishes | src/infrastructure/database/connection_pool.cpp:192-195 | from the 62nd sleep on the default delay has wrapped to zero |
| MessageBroker.StepKeepsInv | src/infrastructure/messaging/message_broker.cpp:16-115 | every critical section keeps the index, the references and the order of messages |
| MessageBroker.ReachableFifo | src/infrastructure/messaging/message_broker.cpp:16-115 | in every run and for every subscription period, accepted = consumed + pending, and all of one topic |
| MessageBroker.PublishAccepts | src/infrastructure/messaging/message_broker.cpp:25-40 | a publication adds one message, completed but otherwise unchanged, at the end of the current period of its topic only |
| MessageBroker.ConsumedIsOldest | src/infrastructure/messaging/message_broker.cpp:57-83 | what a consumer gets, also after waiting, is the oldest accepted message not yet consumed of the topic it asked for |
| MessageBroker.EmptyHandedIff | src/infrastructure/messaging/message_broker.cpp:57-79 | a consumer leaves without a message exactly if the topic is unknown or its queue destroyed, the broker stopped, or the queue still empty after the wait |
| MessageBroker.HistoryIsAppendOnly | src/infrastructure/messaging/message_broker.cpp:16-115 | what was accepted or consumed stays, in its place |
| MessageBroker.StopIsFinal | src/infrastructure/messaging/message_broker.cpp:10-76 | after the broker is stopped, at any time, no run lets a call past its first test or hands a message to a consumer |
| MessageBroker.UnsubscribeSoundIff | src/infrastructure/messaging/message_broker.cpp:63-71 | unsubscribing leaves all references alive exactly if no consumer waits on the topic; otherwise that consumer's next step uses a dead one |
| MessageBroker.DeadReferenceHappens | src/infrastructure/messaging/message_broker.cpp:63-115 | such a run exists with one topic and one consumer |
| MessageBroker.CarefulRunsAreSound | src/infrastructure/messaging/message_broker.cpp:47-115 | without such an unsubscribe no run ever uses a dead reference |
| BrokerObject.InMemoryMessageBroker.Publish | src/infrastructure/messaging/message_broker.cpp:16-45 | errors change nothing; otherwise the completed message is appended to its topic and no other topic changes |
| BrokerObject.InMemoryMessageBroker.ConsumeStart | src/infrastructure/messaging/message_broker.cpp:51-71 | error, front of the queue, or a wait on the topic's queue |
| BrokerObject.InMemoryMessageBroker.ConsumeEnd | src/infrastructure/messaging/message_broker.cpp:73-83 | nothing when stopped or empty, else the front |
| BrokerObject.InMemoryMessageBroker.Subscribe | src/infrastructure/messaging/message_broker.cpp:86-101 | an empty or taken name is refused, else a new empty queue |
| BrokerObject.InMemoryMessageBroker.Unsubscribe | src/infrastructure/messaging/message_broker.cpp:103-115 | only this topic's queue goes |
| BrokerObject.InMemoryMessageBroker.PendingCount | src/infrastructure/messaging/message_broker.cpp:117-128 | the number of messages waiting, or not found |
| FileOrder.MigrationFiles | src/infrastructure/database/migration.cpp:138-154 | exactly the regular files whose names end in .sql after another character, each once and in byte order, whatever order the directory lists them in; without a directory a configuration error |
| FileOrder.LessIsByteOrder | src/infrastructure/database/migration.cpp:152-152 | the order of the sort: a proper prefix first, otherwise the first different byte decides |
| FileOrder.ExtensionIsSuffix | src/infrastructure/database/migration.cpp:147-147 | the extension is .sql exactly if the name ends in .sql after another character |
| FileOrder.SortedAscending | src/infrastructure/database/migration.cpp:152-152 | sorting distinct names keeps them all and orders them |
| FileOrder.AscendingUnique | src/infrastructure/database/migration.cpp:152-152 | there is one ascending list of given names |
| Migration.StepKeepsInv | src/infrastructure/database/migration.cpp:33-52 | a check, commit, in-doubt commit or failure of any runner keeps that some first files are dealt with and no runner is further |
| Migration.CommitsAreInOrderOnce | src/infrastructure/database/migration.cpp:20-55 | over any table, in every interleaving of any number of runners, with failures anywhere, the first of the missing files are committed in order and once each, and nothing recorded is executed again |
| Migration.SuccessIsComplete | src/infrastructure/database/migration.cpp:33-54 | over any table, as soon as one run succeeds, log and table are those of one uninterrupted run, and no later step changes them |
| Migration.RecordedStayAPrefix | src/infrastructure/database/migration.cpp:33-52 | if the recorded files were a prefix of the list they stay one in every interleaving |
| Migration.RaceLosesOnPrimaryKey | src/infrastructure/database/migration.cpp:121-126 | two runners can pass the same check; the second fails on the primary key and the file is committed once |
| Migration.Database.Apply | src/infrastructure/database/migration.cpp:33-54 | one run succeeds exactly if no check fails and no missing file fails or is left in doubt; a missing file is recorded exactly if the run gets there and neither its check nor its execution fails |
| Migration.Database.ApplyDirectory | src/infrastructure/database/migration.cpp:20-55 | it fails without a change if the table cannot be ensured or there is no directory; success adds exactly the directory's .sql files to the table |
| Migration.PendingOfPrefix | src/infrastructure/database/migration.cpp:33-52 | with a recorded prefix, the files to execute are the rest of the list |
| Migration.FailuresAnywhere | src/infrastructure/database/migration.cpp:33-52 | a runner in the middle of a call can fail at any time, and that leaves no trace |
| PendingMigrations.SetDifference | src/infrastructure/database/migration.cpp:102-106 | the merge loop computes the merge difference |
| PendingMigrations.DifferenceIsPendingIff | src/infrastructure/database/migration.cpp:90-109 | the merge equals the file-by-file check exactly if every recorded file comes after smaller names only in the database's answer |
| PendingMigrations.SameOrderAgrees | src/infrastructure/database/migration.cpp:90-109 | with the same order on both sides it lists what apply would execute, and nothing after a complete apply |
| PendingMigrations.OtherCollationDisagrees | src/infrastructure/database/migration.cpp:73-73 | with another collation a recorded file is reported as pending |
| Cache.CacheAnswersAsHistory | src/infrastructure/cache/cache_adapter.cpp:19-138 | in every run with a clock that does not go back, get and exists answer by the last set since del or flush, if not expired |
| Cache.ReadsAreInvisible | src/infrastructure/cache/cache_adapter.cpp:31-34 | erasing on reads and sweeps anywhere in a run changes no later answer |
| Cache.SetLifetime | src/infrastructure/cache/cache_adapter.cpp:49-62 | how long a value is granted for positive, zero and negative time-to-live, with and without a default |
| Cache.BackwardClockForgets | src/infrastructure/cache/cache_adapter.cpp:31-34 | with a clock that goes back the cache can forget a value still granted |
| Cache.InMemoryCacheAdapter.Get | src/infrastructure/cache/cache_adapter.cpp:19-37 | the answer, and the erasure of an expired entry |
| Cache.InMemoryCacheAdapter.Set | src/infrastructure/cache/cache_adapter.cpp:43-65 | the entry with its effective time-to-live |
| Cache.InMemoryCacheAdapter.Del | src/infrastructure/cache/cache_adapter.cpp:72-77 | the key goes |
| Cache.InMemoryCacheAdapter.Exists | src/infrastructure/cache/cache_adapter.cpp:84-100 | true exactly when get would answer |
| Cache.InMemoryCacheAdapter.Flush | src/infrastructure/cache/cache_adapter.cpp:107-112 | everything goes |
| Cache.InMemoryCacheAdapter.EvictExpired | src/infrastructure/cache/cache_adapter.cpp:119-133 | the loop ends, removes only entries expired at the early reading, keeps the others unchanged and leaves none expired |
| Uuid.RoundTrip | src/common/utils/uuid.hpp:25-50 | reading the printed text gives the identifier back, for all 128-bit values |
| Uuid.TextIsInjective | src/common/utils/uuid.hpp:40-50 | different identifiers print differently |
| Uuid.PrintsCanonical | src/common/utils/uuid.hpp:25-50 | 32 digits in any case with hyphens anywhere print back as the lower-case canonical text |
| Uuid.WrongLengthIsNil | src/common/utils/uuid.hpp:30-32 | text reads as nil exactly if it has not 32 digits or all of them are zero |
| Uuid.CanonicalText | src/common/utils/uuid.hpp:40-50 | the text is 36 characters, hyphens in the four places and otherwise the hexadecimal digits of the 128 bits, most significant first |
| Uuid.ThrowsIff | src/common/utils/uuid.hpp:30-34 | reading throws exactly if there are 32 characters besides hyphens and one half has no digit where a number must begin |
| Uuid.NumeralReads | src/common/utils/uuid.hpp:33-34 | a plus sign or 0x before the digits is skipped, and what follows them is not looked at |
| Uuid.GenerateIsVersion4 | src/common/utils/uuid.hpp:14-23 | version 4 and variant 10 whatever the random words, visible in the text; never nil; the other bits are the random ones |
| Uuid.MasksAreSums | src/common/utils/uuid.hpp:20-21 | the and and or masks replace bits 12 to 15 and the top two bits and keep all others |
| Uuid.ReadUuid | src/common/utils/uuid.hpp:25-38 | on any text, the loop that erases hyphens and the two calls of stoull compute the reading function; where only digits and hyphens occur nothing throws |
| Calendar.DaysRoundTrip | src/common/utils/time_utils.hpp:24-25 | counting up to the date found for a day gives the day back |
| Calendar.DateRoundTrip | src/common/utils/time_utils.hpp:24-36 | finding the date of a count gives the date back |
| Calendar.CalendarAdvances | src/common/utils/time_utils.hpp:24-25 | consecutive days have consecutive dates by the Gregorian rules, from 1970-01-01 |
| Calendar.DaysFormula | src/common/utils/time_utils.hpp:36-36 | the count of days equals the closed arithmetic of the Gregorian calendar |
| TimeUtils.TimestampRoundTrip | src/common/utils/time_utils.hpp:17-44 | every time point from the epoch through the year 9999 is read back truncated to milliseconds |
| TimeUtils.TimePointYears | src/common/utils/time_utils.hpp:17-29 | the time points of the items are those whose year has four digits |
| TimeUtils.FormatShape | src/common/utils/time_utils.hpp:17-29 | the text has 24 characters: date, hour, minute, second and millisecond in decimal with the marks between them |
| TimeUtils.TruncatedText | src/common/utils/time_utils.hpp:17-29 | cutting a time to milliseconds does not change its text |
| TimeUtils.GetTimeReads | src/common/utils/time_utils.hpp:33-35 | a date and time is read exactly if month, day, hour, minute and second are in range, whatever follows; the day is not compared with its month |
| TimeUtils.ParseStamp | src/common/utils/time_utils.hpp:36-43 | without a dot the time is that of the seconds; up to three digits after the dot are a number of milliseconds |
| TimeUtils.SignedFraction | src/common/utils/time_utils.hpp:39-41 | a sign before the fraction is read with it |
| TimeUtils.ParseIso8601 | src/common/utils/time_utils.hpp:31-44 | the parser with its search for the dot computes the parsing function, blanks and signs in the fraction included |
| Decimal.IntRoundTrip | src/infrastructure/repositories/postgres_item_repository.cpp:400-413 | a number printed as a parameter is read back |
| Decimal.IntTextShape | src/infrastructure/repositories/postgres_item_repository.cpp:400-413 | the text is a minus sign for a negative number and the decimal digits of its size without leading zeros |
| Items.DecodeEncodeIff | src/infrastructure/repositories/postgres_item_repository.cpp:329-363 | a stored item comes back with nothing lost but fractions of milliseconds exactly if amounts are not negative, the currency has three letters and stock and minimum share a unit; unchanged exactly if its times are also whole milliseconds |
| Items.SoundUsesNoFallback | src/infrastructure/repositories/postgres_item_repository.cpp:331-350 | in a row that came from such an item no fallback of the decoder is used |
| Items.Fallbacks | src/infrastructure/repositories/postgres_item_repository.cpp:331-358 | what the decoder makes of negative amounts, wrong currencies, unknown statuses and missing references in any other row |
| Items.CreatedRow | src/core/use_cases/create_item_use_case.cpp:29-44 | each column of a new row holds what was asked for, and the times as text |
| Items.NewItem | src/core/use_cases/create_item_use_case.cpp:9-22 | creation is refused exactly for a negative amount or a currency without three letters, and gives a well-formed item otherwise |
| Items.ApplyRequest | src/core/use_cases/update_item_use_case.cpp:14-61 | the setters with early exits refuse exactly an empty name, a negative amount or a price in a currency without three letters, and otherwise give the merged item |
| Items.UpdatedIsWellFormed | src/core/use_cases/update_item_use_case.cpp:33-55 | an accepted update keeps the item well formed, and its id, sku, currency, unit and creation time |
| Items.UpdatedColumns | src/core/use_cases/update_item_use_case.cpp:14-62 | decoding, merging and encoding changes exactly the columns the request names, and the update time |
| ItemStore.StepKeepsInv | src/core/use_cases/create_item_use_case.cpp:7-45 | every transaction of create, update and delete keeps keys, unique skus and sound rows |
| ItemStore.ReachableRowsAreSound | src/infrastructure/repositories/postgres_item_repository.cpp:175-295 | over every interleaving skus stay unique and every row came from a well-formed item |
| ItemStore.SecondTransactionIff | src/core/use_cases/delete_item_use_case.cpp:5-16 | which calls of create, update and delete get to their second transaction |
| ItemStore.OnlyOwnRowChanges | src/core/use_cases/update_item_use_case.cpp:7-63 | only an accepted second transaction writes, and only its own row; what is rejected changes nothing, what is answered with an error only if the commit was in doubt |
| ItemStore.SkuRaceLosesOnUnique | src/infrastructure/database/migrations/001_initial_schema.sql:66-66 | two creations of one sku that both passed the look-up: the second insert is rejected, also if the first was in doubt |
| ItemStore.UpdateIsAtomicIff | src/core/use_cases/update_item_use_case.cpp:7-62 | in every run in which others act between an update's two transactions, the second leaves the table and answers as if it had read only then exactly if the row is gone or agrees with the one read in all the request does not set |
| ItemStore.LostUpdateHappens | src/core/use_cases/update_item_use_case.cpp:7-62 | a run in which an update of the stock takes back a name given in between, both writes accepted |
| ItemRepository.Repository.Save | src/infrastructure/repositories/postgres_item_repository.cpp:175-219 | the row is inserted and decoded to what was saved with its times cut, or nothing changes and there is an error, or the commit is in doubt |
| ItemRepository.Repository.Update | src/infrastructure/repositories/postgres_item_repository.cpp:221-267 | all columns but the creation time are overwritten and the old creation time comes back, or nothing changes, or the commit is in doubt |
| ItemRepository.Repository.Remove | src/infrastructure/repositories/postgres_item_repository.cpp:269-295 | the row goes, or an error, and a change with an error only in doubt |
| ItemRepository.Repository.FindById | src/infrastructure/repositories/postgres_item_repository.cpp:41-69 | the item with that id, which encodes to the row, not found, or a database error |
| ItemRepository.Repository.CreateItem | src/core/use_cases/create_item_use_case.cpp:7-45 | when it succeeds, and then the item asked for is stored and returned; otherwise which error, and nothing changes unless in doubt |
| ItemRepository.Repository.UpdateItem | src/core/use_cases/update_item_use_case.cpp:5-63 | refused exactly for an empty name or a negative price, stock or minimum; otherwise the row becomes that of the merged item; nothing changes on an error unless in doubt |
| ItemRepository.Repository.DeleteItem | src/core/use_cases/delete_item_use_case.cpp:5-17 | validation, not found, a database error, or exactly this row goes |
| QueryBuilder.BuildFindAllQuery | src/infrastructure/repositories/postgres_item_repository.cpp:365-416 | the appending code builds the item query |
| QueryBuilder.BuildCountQuery | src/infrastructure/repositories/postgres_item_repository.cpp:418-459 | the appending code builds the count query |
| QueryBuilder.PlaceholdersInOrder | src/infrastructure/repositories/postgres_item_repository.cpp:375-413 | placeholders are $1 to $n in order, n the number of parameters |
| QueryBuilder.BuildersAgree | src/infrastructure/repositories/postgres_item_repository.cpp:365-459 | both queries have the same conditions, and the count parameters are the others without the last two |
| QueryBuilder.ConditionsMeanFilter | src/infrastructure/repositories/postgres_item_repository.cpp:380-405 | the text with its parameters, evaluated on any item's row, is the conjunction of the filter's present fields; the search text stands between two percent signs |
| QueryBuilder.CountRuns | src/infrastructure/repositories/postgres_item_repository.cpp:140-173 | the count query counts the matching items |
| QueryBuilder.OffsetExactIff | src/infrastructure/repositories/postgres_item_repository.cpp:409-409 | the offset is an int congruent to the product, and that of the page exactly if the product fits |
| QueryBuilder.FindAllRuns | src/infrastructure/repositories/postgres_item_repository.cpp:101-138 | the item query delivers the slice of the matching items that page size and offset name, or fails for a negative one |
| PageCount.RoundedIsNearest | src/core/use_cases/list_items_use_case.cpp:20-20 | the modelled division delivers a double to which no double is preferable |
| PageCount.CeilOfNearest | src/core/use_cases/list_items_use_case.cpp:20-20 | rounding any nearest double of the quotient up is integer ceiling division |
| PageCount.CountConversion | src/core/use_cases/list_items_use_case.cpp:20-20 | the conversion of the count is a nearest double, and exact up to 2^53 |
| PageCount.PageCountExact | src/core/use_cases/list_items_use_case.cpp:20-20 | for every count up to 2^53 and positive page size the number of pages is exact |
| PageCount.PageForgotten | src/core/use_cases/list_items_use_case.cpp:20-20 | with one row more a page is forgotten |
| ListItems.ExecuteReturns | src/core/use_cases/list_items_use_case.cpp:8-29 | over the rows that the store holds, one call returns the slice of the items decoded from them, the count and the page count, or a database error |
| ListItems.SearchFinds | src/infrastructure/repositories/postgres_item_repository.cpp:380-405 | where ILIKE finds a text between percent signs in what contains it, exactly the items whose name or sku contains the search text and that have the other properties are counted and listed; an empty text and the nil category restrict nothing |
| ListItems.PagesPartition | src/infrastructure/repositories/postgres_item_repository.cpp:409-413 | pages together are the whole list, all but the last full, the last not empty, later ones empty |
| ListItems.ListingIsComplete | src/core/use_cases/list_items_use_case.cpp:8-29 | asking for pages 1 to total_pages returns every matching item of the table once, in order, with the exact count |
| ListItems.PageWrapsAround | src/infrastructure/repositories/postgres_item_repository.cpp:409-409 | with 65536 items a page, page 65537 has the items of page 1 |

## Left out

- Holding several connections: each repository and migration call takes one handle and gives it back, so a thread of the pool model holds at most one and acquires none while holding it.
- Destruction: the pool's destructor runs when no handle refers to the pool; a thread then past its pop can only fail, because `shared_from_this` throws. What happens after the destructor has returned is not modelled.
- Notification of consumers: every wait of `consume` has a timeout, so when a waiter resumes is left open, and only what it may then take is stated.
- Backoff.CreateConnection: requires that the loop ends, by its condition or by a success.
- Uuid.FromString: the rows' identifiers are read by this function, which is defined where only digits and hyphens occur or the length is wrong; `TryFromString` covers all other text.
- TimeUtils.ParseIso8601: gives no result where `get_time` fails, because what it has then filled in is up to the library, or where `stoi` throws; times before the epoch are not modelled.
- PostgreSQL's own text of timestamps, which differs from the formatted one: the model's columns hold the text that was written.
- Foreign keys, column lengths and NULLs other than in the two references; a transaction may fail at any time instead.
- The meaning of ILIKE: any relation between pattern and text, the same for both queries; case folding and the wildcards a search text may itself contain are not described.
- ListItems.ExecuteReturns: where the offset does not fit an int the language defines no result; the model wraps around. A database failure of either query is not a parameter of the call. One order of the rows is used for all pages, also among equal creation times.
- The order in which idle connections are used: the queue is modelled, but no fairness among waiting threads is claimed.
- `record_migration`, `find_low_stock`, `subscribed_topics`, and the user repository, which add nothing harder.
- Controllers, middleware, JSON, logging, configuration, authentication, and the small value objects apart from Money and Quantity.

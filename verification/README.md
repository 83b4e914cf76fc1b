# Workshop reservations: a verified model

A Dafny 4.11 model of the reservation server and of the two pieces of asio machinery that ship with
it. Four parts of the program are modelled, each with the properties it exists for.

**The reservation service.** Reserve, pay, cancel and the periodic check share three SQLite tables
under one mutex, each as several SQL statements outside any SQL transaction. `Requests` gives each
of them as one indivisible change of the tables; `WorkshopService` gives the classes as written,
statement by statement, with the row-stepping loops, and proves each method equal to its
indivisible operation; `Interleaving` is the step machine in which any number of threads run those
statements one at a time, with a lock owner and a program counter per thread. Every schedule of the
machine is shown to be a run of indivisible operations: a call takes effect at one of its own steps,
it is answered with exactly that effect's reply, and calls that do not overlap keep their order in
that one run. On top of that, for every run from empty tables:

- the ledger (`Ledger`): one payment row iff PLATITA or ANULATA, one refund row iff ANULATA, each
  refund the negation of its own payment, no row without a reservation;
- admission (`Capacity`, `Runs`): no slot with a readable hour is ever overfilled, its load is always
  what was granted for it less its refunds and expirations, `n` competing requests obtain exactly
  `min(n, free places)`, and a day holds at most eight capacities;
- the audit (`AuditAgreement`): a completed round lists every occupied slot once, with the admission
  count, its capacity and the verdict, and every centre with its money, and nothing else; an overlap is
  never reported; balances equal the payments of the reservations that are still PLATITA;
- life cycle and hold time (`Runs`, `Concurrent`): ids are never reused, statuses follow the graph
  REZERVARE → PLATITA → ANULATA, REZERVARE → EXPIRAT, nobody is told "paid" or "refunded" twice,
  and an unpaid reservation outlives its timeout by no more than the time since the last sweep.

**The thread pool** (`Pool`, `ThreadPool`). Workers, callers of `enqueue`, the destructor, the mutex
and the condition variable with its wait set and spurious wake-ups form a step machine. No wake-up
is lost although the notification is sent after the lock is released; a running pool accepts every
task it is handed, and nothing but the mutex, the wait set and the join blocks anyone; shutdown
drains the queue, runs every accepted task once, in order of submission, and terminates.

**The server** (`Server`). Pool and service composed: a worker's task is one call of the service. No
thread holds both mutexes. A run makes boundedly many moves apart from what its sweeps and spurious
wake-ups add; one that goes on until nothing begun can be carried on has answered every accepted
request exactly once, with the effect of that very request.

**The stream buffer and the aligned allocation** (`StreamBuf`, `AlignedAllocation`). asio's
`basic_streambuf`, on its array with its four pointers, is a bounded first-in first-out byte queue
that fails exactly when the documentation says; the completion handler's allocator finds its block
again from the offset stored behind the user's bytes, with any number of live blocks.

Four results say where a guarantee ends, each with the exact condition and a concrete input. A time
text that SQLite cannot turn into an hour is never counted, so requests for it are granted without
limit (`Runs.RepeatedGrants`, `Runs.GrantedBeyondCapacity`); the capacity theorems are therefore
about readable hours. Such a row, once granted for a place with a capacity row, makes the periodic
check build a string from a null pointer; this is the reply `Undefined`, given exactly when such a
row is active and not expired by the round (`AuditAgreement.AuditDefinedExactly`,
`Runs.RoundUndefined`). And in `std::size_t` arithmetic the allocator stays inside its block exactly
when `size + align - 1 + 8` does not wrap (`AlignedAllocation.InsideBlockExact`,
`AlignedAllocation.NothingObtained`). Last, `reserve` moves the bytes before it throws and leaves
the pointers: a call that throws keeps the stream buffer's contents exactly when they repeat after
as many bytes as stand consumed before them in the array (`StreamBuf.BasicStreambuf.Prepare`,
`Overflow`, and `StreamBuf.TwiceTheSecond`).

`Folds` holds the counting and summing lemmas, `Prelude` the shared small definitions, `Tables` the
tables and SQL statements, `Audit` the two audit queries.

## Model

| member | source | states |
|---|---|---|
| Capacity.DoorExact | server/service.cpp:13-22 | character by character: a request passes the door iff characters 11 and 12 read as an hour from 9 to 16 in one of the forms stoi accepts; "Format data invalid" iff no number can be read; otherwise the hour is closed |
| Capacity.ReserveReply | server/service.cpp:11-88 | the four answers to a reservation, each exactly when: bad format, closed, full with the capacity of the row, else 10, and the next id iff the load is below it |
| Capacity.ReserveSlot | server/service.cpp:28-84 | an in-hours request is granted iff load < capacity, without a row iff load < 10; it fills one place of its slot and of no other; a refusal names the capacity that was reached |
| Capacity.CancelSlot | server/service.cpp:132-143 | a refund frees exactly one place, in the slot of the cancelled row only |
| Capacity.SlotStep | server/service.cpp:28-163 | load after + places freed = load before + (1 for a grant of that very slot): only a grant raises a load, only a cancellation or a sweep lowers one, by exactly the rows it takes out of the slot |
| Capacity.RefundFrees | server/service.cpp:117-146 | a cancellation frees one place of a slot iff it is refunded and its reservation stands there, otherwise nothing |
| Capacity.CapacityKept | server/service.cpp:44-66 | no operation overfills any slot with a readable hour |
| Capacity.CanonicalHour | server/service.cpp:14-46 | for canonical text the hour tested at the door is the hour of the key used for counting |
| Capacity.InHoursKept | server/service.cpp:14-19 | every stored reservation starts between 9 and 16 |
| Capacity.DailyBound | server/service.cpp:14-66 | at most 8 × capacity active canonical reservations per centre, workshop and day |
| Ledger.PayRecords | server/service.cpp:94-107 | a successful payment changes one row, to PLATITA, and records its INCASARE |
| Ledger.CancelRecords | server/service.cpp:132-143 | a successful cancellation changes one row, to ANULATA, and records the negated payment |
| Ledger.AtomicKeeps | server/service.cpp:90-163 | every operation keeps ids distinct and the ledger in step with the statuses |
| Ledger.PayReply | server/service.cpp:94-110 | "paid" iff a row with that id is REZERVARE, otherwise refused |
| Ledger.CancelReply | server/service.cpp:117-146 | "Eroare la anulare" iff already ANULATA, "refunded" iff PLATITA, with the recorded amount, and "not paid or does not exist" iff neither: unpaid, expired or unknown |
| AuditAgreement.GroupingAgrees | server/service.cpp:177-196 | the grouped join lists each centre, workshop and hour (NULL being one more hour) that has active rows and a capacity row, once, with the number of those rows, and nothing else |
| AuditAgreement.AuditDefinedExactly | server/service.cpp:157-196 | a round reaches its end iff every active reservation with a capacity row and an hour the engine cannot read is one that this round expires; otherwise a string is made of a null pointer |
| AuditAgreement.NoOverlapReported | server/service.cpp:190-210 | where capacity is respected no line of a completed round says SUPRAPUNERE, and a slot is reported full iff the next request for it would be refused |
| AuditAgreement.SweepReportsExpired | server/service.cpp:159-175 | the reported number is the number of rows that became EXPIRAT |
| AuditAgreement.BalancesRight | server/service.cpp:217-228 | each centre is listed once, with the sum of its transactions |
| AuditAgreement.BalanceConserved | server/service.cpp:217-228 | a centre's balance is the sum of the payments of its reservations that are PLATITA; the balances add up to all transactions |
| AuditAgreement.ReportRight | server/service.cpp:159-229 | what a completed round reports of the tables it leaves: every occupied slot with a capacity row on one line with load, capacity and verdict (over, full, free), no other line; every centre with joined transactions once with its total, no other; the two "nothing to show" flags exactly |
| Runs.RunsAreSafe | server/service.cpp:11-163 | ledger, capacity and opening hours hold after every run |
| Runs.RepliesAreRecorded | server/service.cpp:97-143 | payments and refunds in the table are exactly the "paid" and "refunded" replies given |
| Runs.PaidAndRefundedOnce | server/service.cpp:94-143 | per id at most one "paid" and one "refunded", the latter only after the former; the final status is determined by them; an expired reservation was never paid |
| Runs.IdsNeverReused | server/database.cpp:34-39 | later grants carry larger ids |
| Runs.IdsAreConsecutive | server/database.cpp:34-39 | the n-th grant carries the n-th id after the counter at the start |
| Runs.RefusalsChangeNothing | server/service.cpp:11-147 | a request that is turned down leaves the tables as they were |
| Runs.TablesGrow | server/service.cpp:66-143 | a grant adds one row and one id, a payment or refund one transaction at the end, everything else nothing |
| Runs.RowStep | server/service.cpp:94-159 | one operation takes a row along one arrow of the status graph at most, only the arrow and the row it is meant for |
| Runs.Lifecycle | server/service.cpp:94-159 | between any two points of a run a reservation keeps its data and moves only along the graph |
| Runs.GrantsAreKept | server/service.cpp:66-77 | a granted reservation stays in the table under the replied id, with the requested data and its creation time |
| Runs.PaymentRecorded | server/service.cpp:99-104 | an accepted payment is from then on the payment recorded for its id |
| Runs.RefundIsThePayment | server/service.cpp:117-143 | the refunded amount is the amount the same reservation was paid with |
| Runs.HoldTime | server/service.cpp:157-163 | after a sweep at s with timeout T ≥ 0, at time t no unpaid row is older than T + (t − s) |
| Runs.ExpiredLate | server/service.cpp:157-163 | every expired row was unpaid and older than the timeout of the sweep that expired it |
| Runs.ExactAdmission | server/service.cpp:54-84 | without cancellations and sweeps n requests for a slot obtain exactly min(n, free places), in any order and among any other operations |
| Runs.LoadAccount | server/service.cpp:28-163 | over any run: load after = load before + grants for the slot − refunds of reservations in it − reservations in it that a sweep expired |
| Runs.RepeatedGrants | server/service.cpp:44-77 | n equal in-hours requests obtain min(n, free places) if the engine can read their time, and all of them, at any load, if it cannot and the capacity is positive |
| Runs.GrantedBeyondCapacity | server/service.cpp:13-77 | at the text "xxxxxxxxxxx10", on any tables with ten seats and with any engine that reads no date in that text: eleven of eleven requests are granted |
| Runs.RoundUndefined | server/service.cpp:177-196 | one such grant for a place with a capacity row, and a round of the check at that moment makes a string of a null pointer |
| Runs.EveryAuditIsDefined | server/service.cpp:177-196 | in a run from empty tables in which every request past the door, for a place with a capacity row, has a readable time, every round reaches its end |
| Runs.EveryAuditIsRight | server/service.cpp:153-229 | in any run every completed round reports the tables at its moment, line by line, and the number of rows it expired |
| Runs.EveryAuditIsClean | server/service.cpp:177-229 | in a run from empty tables no completed round reports an overlap, and its balances are the payments then held |
| Interleaving.StepGood | server/service.cpp:23-163 | the mutex is held exactly by the thread inside its call, and what its locals say about the tables stays true |
| Interleaving.StepRefines | server/service.cpp:11-236 | each statement is one whole operation on the settled tables, with its reply, or changes nothing of them |
| Interleaving.EveryScheduleRefines | server/service.cpp:11-236 | every schedule is a run of indivisible operations that ends in the same tables whenever the mutex is free |
| Interleaving.CallsMatchAnswers | server/service.cpp:11-236 | each thread's calls take effect once each, in order, between call and return, and are answered with what they did |
| Interleaving.LogIsOneOrder | server/service.cpp:11-236 | the effects of each thread, in order, are exactly its own entries of the one log that is replayed by indivisible operations |
| Interleaving.RealTimeOrder | server/service.cpp:11-236 | if t's i-th call is answered before u's j-th call begins, the first stands before the second in that log, and each is answered what stands at its place |
| Interleaving.LogInTimeOrder | server/service.cpp:66-159 | effects happen in the order of their clock readings |
| Interleaving.ClockRuns | server/service.cpp:66-159 | the clock the statements read is the time that has passed |
| Concurrent.SafeUnderConcurrency | server/service.cpp:23-163 | from empty tables, under every schedule, the tables are safe whenever the mutex is free |
| Concurrent.HoldTimeUnderConcurrency | server/service.cpp:149-163 | the age bound on unpaid rows, under every schedule |
| Concurrent.EffectsAreCallsAndAnswers | server/service.cpp:23-147 | over all threads no call and no answer is lost, duplicated or invented |
| Concurrent.AnsweredOnce | server/service.cpp:90-147 | under every schedule an id is answered "paid" at most once and "refunded" at most once |
| Concurrent.NoOverlapUnderConcurrency | server/service.cpp:200-203 | under every schedule no audit reports an overlap |
| Concurrent.RoundsDefinedUnderConcurrency | server/service.cpp:177-196 | from empty tables, if every request past the door, for a place with a capacity row, has a readable time, no round of any schedule is undefined |
| Concurrent.ExactAdmissionUnderConcurrency | server/service.cpp:23-84 | clients racing for a slot obtain exactly min(requests, free places) answers "success" |
| Concurrent.RunDecreases | server/service.cpp:11-147 | every step that is not blocked brings an answer nearer |
| Concurrent.NoDeadlock | server/service.cpp:23-147 | while a call is unanswered some thread can take its next step |
| WorkshopService.Database.Init | server/database.cpp:47 | the two seed capacities are added unless present, nothing else changes |
| WorkshopService.Service.ProceseazaRezervare | server/service.cpp:11-88 | the code of the reservation has exactly the effect and reply of the indivisible operation |
| WorkshopService.Service.ProceseazaPlata | server/service.cpp:90-111 | likewise for the payment |
| WorkshopService.Service.ProceseazaAnulare | server/service.cpp:113-147 | likewise for the cancellation |
| WorkshopService.Service.WriteOccupancy | server/service.cpp:187-214 | the loop writes the right verdict for each row in order, up to the first row without an hour if there is one, and remembers whether there was a row |
| WorkshopService.Service.WriteBalances | server/service.cpp:222-229 | the loop writes each balance in order and remembers whether there was one |
| WorkshopService.Service.RunPeriodicCheck | server/service.cpp:153-235 | one round of the check has exactly the effect and report of the indivisible sweep, and is undefined exactly when that is |
| Pool.NoLostWakeupKept | server/thread_pool.h:33-56 | every step keeps: while anyone is parked, queued tasks ≤ pending notifications + woken workers that have not rechecked |
| Pool.WorkConserving | server/thread_pool.h:33-56 | in every reachable state no worker sleeps beside a queued task once nothing is in flight |
| Pool.GoodKept | server/thread_pool.h:27-67 | mutual exclusion, wake-ups, shutdown order and the fate of every task are kept by every step |
| Pool.EnqueueEffect | server/thread_pool.h:49-58 | whenever the mutex is free an enqueue may begin; it appends its task to the queue of a running pool, throws at a stopped one, and changes nothing else |
| Pool.AcceptedWhileAlive | server/thread_pool.h:49-58 | until the destruction has begun every enqueue past its critical section has handed over its task, once |
| Pool.DestructionStops | server/thread_pool.h:60-65 | whenever the mutex is free the destruction may begin, and it stops the pool |
| Pool.StartIsOpen | server/thread_pool.h:27-33 | at the start every worker may enter its critical section and no call has begun |
| Pool.OnlyTheseBlock | server/thread_pool.h:27-67 | nothing but the mutex, the wait set and the join ever blocks a worker, a caller or the destructor |
| Pool.AnyParkedMayWake | server/thread_pool.h:33-56 | any parked worker may wake by itself or be the one a notification wakes |
| Pool.ShutdownDrains | server/thread_pool.h:34-66 | tasks leave in the order they entered; when all workers have exited the queue is empty and every accepted task, and no other, has run exactly once |
| Pool.DestroyedIsDrained | server/thread_pool.h:60-67 | the destructor returns only in such a state |
| Pool.ActionsUseUp | server/thread_pool.h:30-67 | every step but a spurious wake-up decreases a measure of the work left |
| Pool.ShutdownTerminates | server/thread_pool.h:34-66 | after stop nobody parks again and every step, spurious wake-ups included, decreases a lexicographic measure |
| Pool.ShutdownRunsEnd | server/thread_pool.h:34-67 | after stop a run has no more steps, spurious wake-ups included, than were left to do; one that goes on until nothing begun can be carried on ends with the destructor's return |
| Pool.QueueKeepsMoving | server/thread_pool.h:33-56 | while a task is queued some agent can carry on what it has begun, without a spurious wake-up, a further enqueue or the destructor |
| Pool.ShutdownKeepsMoving | server/thread_pool.h:60-67 | after stop some agent can carry on until the destructor has returned |
| ThreadPool.TaskQueue.Push | server/thread_pool.h:51-55 | a task is appended unless the pool has been stopped, then it is refused |
| ThreadPool.TaskQueue.Next | server/thread_pool.h:33-38 | one pass of the critical section: park, exit or take the oldest task; a stopped pool still hands out its tasks |
| ThreadPool.TaskQueue.WorkUntilExit | server/thread_pool.h:30-40 | a worker alone with a stopped pool runs all remaining tasks in order and returns |
| ThreadPool.TaskQueue.Shutdown | server/thread_pool.h:60-67 | with one worker, the destructor leaves a stopped, empty queue and all tasks run in order |
| Server.NextHealthy | server/main.cpp:69-74 | pool, service and the link between a worker's task and its call stay consistent |
| Server.NeverBothLocks | server/thread_pool.h:32-39 | no thread holds queue_mutex and db_mutex together |
| Server.UnansweredKeepsMoving | server/main.cpp:69-74 | while an accepted request is unanswered something begun can be carried on, with no new request, sweep, clock tick or spurious wake-up |
| Server.MovesTerminate | server/main.cpp:69-74 | a run makes at most as many moves as its start state has to do, plus 7 per sweep and 24 per spurious wake-up |
| Server.EveryRequestAnswered | server/main.cpp:69-74 | a run that goes on until nothing begun can be carried on gets there within that bound; then every accepted request has been answered exactly once and no other, and unless the server is being shut down these are all requests that were submitted |
| Server.RequestMaySubmit | server/main.cpp:69-74 | whenever queue_mutex is free a request may be submitted, with the effect of the pool's enqueue |
| Server.PoolMovesFreely | server/main.cpp:69-74 | the pool of the server moves as the pool does by itself, but for a worker inside a call |
| Server.SweepMayStart | server/main.cpp:39-45 | a round of the check may start whenever the last one has ended |
| Server.TimeMayPass | server/service.cpp:149-151 | time passes at any moment |
| Server.AnswerToOwnRequest | server/main.cpp:69-74 | in one move: a task finishes with its thread's answer to the request it was submitted with |
| Server.CompletionsAreTasks | server/main.cpp:69-74 | over a run: the finished tasks are the completions in order, each answering its own request |
| Server.CompletionsAreAnswers | server/main.cpp:69-74 | over a run: the completions of a worker are the answers its thread gives in the schedule |
| Server.AnsweredWithItsEffect | server/main.cpp:69-74 | every finished task was answered with the effect of its own request, found at its own place in the log, and finished once |
| Server.ServerRuns | server/main.cpp:39-76 | behind every run of the server stands a schedule of the service |
| Server.ServerIsSafe | server/main.cpp:39-76 | the tables of the running server are safe whenever db_mutex is free |
| StreamBuf.BasicStreambuf.constructor | server/asio/basic_streambuf.hpp:131-141 | an empty buffer with a put area of min(maximum, 128) |
| StreamBuf.BasicStreambuf.Size | server/asio/basic_streambuf.hpp:158-161 | the length of the contents, never above the maximum |
| StreamBuf.BasicStreambuf.Reserve | server/asio/basic_streambuf.hpp:308-346 | a large enough put area stays; otherwise the contents are shifted to the start and the put area becomes as large as asked for, or as the given-up bytes leave it; it fails iff size + n exceeds the maximum, with the put area as it was and the contents slipped by the bytes consumed before |
| StreamBuf.BasicStreambuf.Prepare | server/asio/basic_streambuf.hpp:198-219 | throws iff size() + n > max_size(); otherwise the contents stay and exactly the larger of n and what was there, with the bytes given up, can be written; a call that throws keeps the contents iff they repeat after as many bytes as stand consumed before them in the array |
| StreamBuf.TwiceTheSecond | server/asio/basic_streambuf.hpp:308-346 | a client's run: with maximum size 3, append 0, 1, 2, consume one, prepare 2 throws, and the contents 1, 2 have become 2, 2 |
| StreamBuf.BasicStreambuf.Commit | server/asio/basic_streambuf.hpp:221-238 | appends the first n bytes of the put area, or all of it |
| StreamBuf.BasicStreambuf.Consume | server/asio/basic_streambuf.hpp:240-254 | drops the first n bytes, or all of them |
| StreamBuf.BasicStreambuf.Underflow | server/asio/basic_streambuf.hpp:263-274 | the first byte, or eof iff empty; afterwards all contents are readable |
| StreamBuf.BasicStreambuf.Overflow | server/asio/basic_streambuf.hpp:276-306 | appends the byte, enlarging a full put area by 128 or what is left; throws iff size() equals max_size(), keeping the contents under the same condition as prepare; eof changes neither contents nor put area |
| StreamBuf.BasicStreambuf.ReadSizeHelper | server/asio/basic_streambuf.hpp:352-359 | the least of what is asked for, what fits, and the larger of 512 and the spare capacity; zero only when one of the first two is |
| StreamBuf.BasicStreambuf.PrepareRead | server/asio/basic_streambuf.hpp:352-359 | it prepares exactly that size, which never throws |
| StreamBuf.BasicStreambuf.Perform | server/asio/basic_streambuf.hpp:214-306 | a client's call on the array is the call of the bounded queue, with the same bytes and the same failures |
| StreamBuf.BasicStreambuf.PerformAll | server/asio/basic_streambuf.hpp:214-306 | so is every run of calls, up to the first failure; the bytes taken followed by those left are those at the start followed by those put in |
| StreamBuf.BasicStreambuf.AnyOrder | server/asio/basic_streambuf.hpp:214-306 | any run of member calls in any order has a trace in which each call did what its specification says to contents, put area and consumed bytes; the bytes given and taken are those committed or put and consumed along it; a call throws exactly when prepare asks for more than is left or overflow finds the buffer at its maximum, and leaves the slipped contents; start + given = taken + rest |
| StreamBuf.TraceConserves | server/asio/basic_streambuf.hpp:198-306 | along every such trace the bytes at the start followed by those given are those taken followed by the rest |
| StreamBuf.FilledIsCommitted | server/asio/basic_streambuf.hpp:198-238 | after prepare(n) and writing at most n bytes, the commits that follow, whole or in pieces, with consumes in between, hand out these bytes first and in order |
| AlignedAllocation.PaddingAligns | server/asio/detail/memory.hpp:54-58 | the next aligned address is less than one alignment away |
| AlignedAllocation.PlacementExact | server/asio/any_completion_handler.hpp:140-154 | placing succeeds iff size + align − 1 does not wrap, at an aligned address inside the first align bytes |
| AlignedAllocation.InsideBlockExact | server/asio/any_completion_handler.hpp:140-149 | user bytes and offset lie inside the block iff size + align − 1 + 8 does not wrap |
| AlignedAllocation.NothingObtained | server/asio/any_completion_handler.hpp:140-149 | at size 2^64 − 8, align 1: no byte is requested, and the user bytes and the offset are placed all the same |
| AlignedAllocation.OffsetRoundTrip | server/asio/any_completion_handler.hpp:148-170 | the offset is read back as it was written |
| AlignedAllocation.BaseRecovered | server/asio/any_completion_handler.hpp:169-174 | offset and sizes lead back to the block's start and byte count |
| AlignedAllocation.Heap.Allocate | server/asio/any_completion_handler.hpp:131-156 | aligned, inside its block, apart from all live blocks; writes its offset and nothing else, so every other user reads what it read before |
| AlignedAllocation.Heap.Write | server/asio/any_completion_handler.hpp:131-156 | a user writing inside its own region disturbs no stored offset and no byte of another user |
| AlignedAllocation.Heap.Deallocate | server/asio/any_completion_handler.hpp:158-176 | frees exactly the block that was obtained, with its byte count; the null pointer frees nothing |

## Left out

- SQLite: statements are atomic and succeed; open, prepare and busy errors, WAL and crashes between two statements are not part of this model.
- Dates: `strftime('%Y-%m-%d %H', ·)` is an arbitrary partial function on texts, `datetime('now')` a clock in whole seconds; a negative timeout makes the modifier text invalid and expires nothing.
- Amounts are real numbers; rounding of doubles and of their printed form is not modelled. Ids and counts are unbounded.
- The order of the rows of a GROUP BY is that of first appearance; nothing depends on it. The "HH:00" text of a line is not modelled; hours are taken to have the 13 characters that `substr(11, 2)` needs.
- An undefined round ends with the reply `Undefined` and releases the mutex; nothing is claimed of what the C++ program does from there on.
- Transaction ids and timestamps, the log text and the JSON text of replies.
- HTTP routing, JSON parsing, CORS and argument parsing of main.cpp, apart from enqueue and get; the React client.
- A pool without workers, and the fairness of the scheduler and of the mutexes: that a run goes on as long as something begun can be carried on is assumed where an answer is promised, and a thread may lose the race for a mutex to others as long as sweeps keep being started.
- AlignedAllocation.Heap.Allocate: when the request wraps, nothing is claimed about memory beyond the exact condition; the exception thrown by the underlying allocator itself is not modelled.
- StreamBuf.BasicStreambuf.Reserve: does not model `std::vector::resize` itself throwing, for a size above the vector's own maximum or for lack of memory, which happens after the shift and while size() + n <= max_size().
- The `int` casts of pbump and gbump, pointer arithmetic beyond the array, and the inherited fast paths of `std::streambuf` that do not reach the overridden members.
- `basic_streambuf_ref`, the accessors and the function tables of the completion handler, and the other asio headers.

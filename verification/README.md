# HXLibs: a model of its hard parts

This project models the parts of HXLibs whose correctness is decided by code rather than by metaprogramming,
and proves what they promise for every input, every interleaving or every run. There is one Dafny module for
each component:

| file | what it models |
|---|---|
| `options.dfy` | a value that may be absent |
| `words.dfy` | 32- and 64-bit words as numbers: exclusive or, or, and, shifts, masks by their binary digits |
| `hash_bits.dfy` | the seeded integer hash, the `XorShift32` generator, rounding up to a power of two |
| `perfect_hash.dfy` | the compile-time hash map: buckets, the two-level table with tagged words, seed search, lookup |
| `rings.dfy` | the io_uring submission and completion rings over wrapping 32-bit counters |
| `io_uring.dfy` | the event drive over both rings and its in-flight counter |
| `event_loop.dfy` | timers, yields and the event loop, with coroutines as arbitrary lists of actions |
| `serial_executor.dfy` | the serial executor of coroutines |
| `when_any_all.dfy` | `whenAny` and `whenAll` |
| `thread_pool.dfy` | the thread pool: workers, manager and clients interleaved step by step |
| `future_result.dfy` | the result cell, the bodies of `addTask` and `thenTry`, chains of continuations |
| `utf8.dfy` | wide strings to UTF-8 |
| `radix_tree.dfy` | the path trie on the heap, and the router's search with wildcards |
| `sql_text.dfy` | SQL expressions with placeholders: printing, and reading what was printed |
| `sql_params.dfy` | SQL statements: the text of their clauses, and the binding of their values |
| `co_shared_ptr.dfy` | the shared pointer with a plain counter |
| `string_split.dfy` | splitting strings, letter case |
| `base_convert.dfy` | numbers to hexadecimal text and text in bases 2 to 36 to numbers |

How the proofs are built:

- Code that changes state is a class or a loop in Dafny as well. Its methods are specified by functions of the old
  state, and what the source promises is proved about those functions or kept as an invariant (`Valid`).
- A coroutine protocol is a sequence of stretches of code between points where control is elsewhere. What the
  other coroutines do there is an arbitrary input (`Action`, `Event`, `Completion`, `KernelStep`), so that a theorem
  over all inputs is a theorem over all runs.
- The thread pool is a machine of atomic steps; a class changes the pool's members in place and each method of it
  is one step of the machine. Lock, loads, compare-and-swap and queue operations are separate steps.
- Machine words are natural numbers below their width, and wrap-around is written out.

Where the code does not do what it promises, the exact condition is proved:

- `thenTry` with a function that returns a `Try` (lines 395-405 and 414-422 of `ThreadPool.hpp`): when the function
  answers with an error of its own, the code rethrows the exception of the predecessor instead. If the predecessor
  succeeded, that is a null exception: undefined behaviour, and the result never becomes ready. See
  `FutureResults.StageIsMeant`, `FutureResults.ChainIsMeant` and `FutureResults.LostError`.
- A continuation attached to such a result blocks its worker for ever, and a pool of one worker with it. Workers can
  call all tasks to their ends exactly when no task that another one waits for loses its result. See
  `ThreadPools.CompletableIffSound`, `ThreadPools.LostIsLost` and `ThreadPools.StuckForEver`.
- The destructor of a pool joins every thread in `_workers` and then again those whose ids the manager has not yet
  cleared (lines 179-191 of `ThreadPool.hpp`); a second join throws. See `ThreadPools.DestructorJoinsOnce` and
  `ThreadPools.JoinedTwice`.
- A void task is ready before its function has run, so a reader can miss its exception. See
  `FutureResults.ResultCell.RunVoidTask`.
- A clause left out in a SELECT chain drops the values given before it, and later ones are bound in their places. See
  `SqlParams.AlignedExactly` and `SqlParams.LimitInPlaceOfWhere`.
- The UTF-16 branch of `toByteString` does not refuse a lone low surrogate and then writes octets that are not UTF-8.
  See `Utf8Encoding.BranchesAgree` and `Utf8Encoding.LoneLowIsEncoded`.
- `toLower` sets bit 5 of every byte, which is lowering exactly if each byte is a capital letter or has the bit set.
  See `StringUtils.ToLower`.
- `toUpper` clears bit 5 of every byte, which is raising exactly if each byte is a small letter or has the bit clear.
  See `StringUtils.ToUpper`.
- `strToNum` is documented to ignore letter case; in bases up to ten it does so exactly for texts without a capital
  letter. See `BaseConverter.CaseMattersBelow`, `BaseConverter.CaseMattersForCapitals` and
  `BaseConverter.CaseOfResults`.
- `strToNum` into a signed type computes one power more than it uses, so that numerals overflow whose values fit. See
  `BaseConverter.StrToNumSigned` and `BaseConverter.TenDigitsOverflow`.
- `CVector::end()` lies one past the past-the-end position; `find` stays right because it compares with the same
  `end()`. See `PerfectHash.CVector.Find`.
- The build of a hash map over a key that occurs twice never returns. See `PerfectHash.PerfectNeedsDistinctKeys` and
  `PerfectHash.MakeTable`.
- `EventLoop::run` can leave timers behind: those added by coroutines resumed from the yield queue in the last pass,
  unless they have been destroyed. See `EventLoops.TimersLeftAtExit`, `EventLoops.NoSleepNoTimerLeft` and
  `EventLoops.TimerLeftBehind`.

## Model

| member | source | states |
|---|---|---|
| HashBits.UnmixMix | include/HXLibs/meta/Hash.hpp:54-64 | for every seed, the value can be computed back from its hash: no two 64-bit values share a hash |
| HashBits.MixUnmix | include/HXLibs/meta/Hash.hpp:54-64 | for every seed, every 64-bit word is the hash of some value |
| HashBits.XorStepInvertible | include/HXLibs/utils/Random.hpp:33-39 | the generator step stays in 32 bits and no two states have the same successor |
| HashBits.XorStepOnto | include/HXLibs/utils/Random.hpp:33-39 | every state has a predecessor, so the step is a bijection |
| HashBits.NeverZero | include/HXLibs/utils/Random.hpp:33-39 | 0 is reached after any number of draws exactly from 0 |
| HashBits.Periodic | include/HXLibs/utils/Random.hpp:33-39 | the generator returns to its start state within 2^32 draws |
| HashBits.SeedYieldsZero | include/HXLibs/utils/Random.hpp:29-39 | a generator ever yields 0 exactly when seed + 1 is a multiple of 2^32 |
| HashBits.KnownDraws | include/HXLibs/utils/Random.hpp:29-39 | the start value for seed 0, its first draw, and a draw to which all three shifts contribute |
| HashBits.XorShift32.Next | include/HXLibs/utils/Random.hpp:33-39 | one draw of the generator object is one step of the bijection, and the state is the number drawn |
| HashBits.NextHighestPowOfTow | include/HXLibs/container/CHashMap.hpp:34-46 | the loop gives the least power of two that is not below N, and 0 for N = 0 |
| PerfectHash.TagRoundTrip | include/HXLibs/container/CPmhTable.hpp:29-56 | tag and payload are read back as written exactly when the payload leaves the top bit free |
| PerfectHash.LookupMeans | include/HXLibs/container/CPmhTable.hpp:91-98 | a lookup in plain numbers: the hash under the root seed modulo the size gives a word; with its top bit set the rest is the seed for the second table, else it is the index |
| PerfectHash.CVector.Find | include/HXLibs/container/CVector.hpp:69-92 | the first position of the value, and end(), which is one past the past-the-end position, exactly if it is absent |
| PerfectHash.CVector.PushBack | include/HXLibs/container/CVector.hpp:95-96 | the contents grow by the value at their end |
| PerfectHash.BucketMaxIsRootSized | include/HXLibs/container/CPmhBucket.hpp:31-45 | the bucket capacity is within constant factors of the square root of the table size |
| PerfectHash.MembersExact | include/HXLibs/container/CPmhBucket.hpp:91-112 | the buckets split the keys: index i is in bucket b, once, exactly when the seed sends key i there |
| PerfectHash.Distribute | include/HXLibs/container/CPmhBucket.hpp:101-109 | the pass stops early exactly if some bucket would exceed the capacity, and else leaves the partition |
| PerfectHash.MakeBuckets | include/HXLibs/container/CPmhBucket.hpp:91-112 | the seed taken is the first of the stream under which no bucket overflows, with its partition |
| PerfectHash.SortBucketRefArr | include/HXLibs/container/CPmhBucket.hpp:75-81 | every bucket once, by descending size |
| PerfectHash.TrySeed | include/HXLibs/container/CPmhTable.hpp:124-139 | a seed is taken exactly when it sends the bucket to free and pairwise different slots, which tmp then holds |
| PerfectHash.SearchSeed | include/HXLibs/container/CPmhTable.hpp:121-147 | the first seed of the stream that fits; after every failed try tmp is empty again |
| PerfectHash.PlaceBucket | include/HXLibs/container/CPmhTable.hpp:117-147 | all members of the bucket are found through its seed, and only empty slots of H have been written |
| PerfectHash.ServedStays | include/HXLibs/container/CPmhTable.hpp:129-146 | filling empty slots disturbs no bucket placed before |
| PerfectHash.AllServedIsPerfect | include/HXLibs/container/CPmhTable.hpp:91-98 | if every bucket is placed, lookup of the i-th key is i for every i |
| PerfectHash.MakeTable | include/HXLibs/container/CPmhTable.hpp:102-152 | whenever a table is returned, lookup of the i-th key is i for every i, and H holds indices and empty marks only; without one, a search found all seeds it drew overflowing a bucket or not fitting one; a repeated key never gets one |
| PerfectHash.PerfectNeedsDistinctKeys | include/HXLibs/container/CPmhTable.hpp:102-152 | a table that answers every key with its index exists only for keys that are pairwise different |
| PerfectHash.ScanMeaning | include/HXLibs/container/CHashMap.hpp:106-113 | the reference scan finds a position that holds the key, or there is none |
| PerfectHash.FindIsScan | include/HXLibs/container/CHashMap.hpp:106-113 | find agrees with the linear scan on every key, stored or not |
| PerfectHash.MakeCHashMap | include/HXLibs/container/CHashMap.hpp:76-81 | a map that is returned holds the data in its order over a perfect table of the rounded size |
| Rings.MaskedWraps | lib/liburing/include/liburing.h:2318 | masking a counter that has wrapped gives the same slot as masking its true position |
| Rings.CounterDistance | lib/liburing/include/liburing.h:2158-2161 | the wrapped difference of two counters is the distance of their positions |
| Rings.SlotsDiffer | lib/liburing/include/liburing.h:2315-2318 | two positions in one window of the ring's size never share a slot |
| Rings.RoundupIsLeast | lib/liburing/liburing.cpp:1764-1774 | the rounded size is the least power of two that is not below the request |
| Rings.GetSqCqEntries | lib/liburing/liburing.cpp:1776-1809 | both sizes are powers of two, the completion ring is not the smaller one, and exactly the listed requests are refused |
| Rings.SubmissionRing.constructor | lib/liburing/liburing.cpp:2090-2096 | all counters zero, the index array the identity |
| Rings.SubmissionRing.GetSqe | lib/liburing/include/liburing.h:2302-2324 | an entry is handed out exactly if the queue is not full, behind all others, in a slot that no unconsumed entry uses |
| Rings.SubmissionRing.Fill | lib/liburing/include/liburing.h:2302-2324 | writing a handed-out entry changes that element of the queue and no other |
| Rings.SubmissionRing.FlushSq | lib/liburing/liburing.cpp:1531-1554 | everything handed out becomes visible, nothing is lost, and the result is the number not yet consumed |
| Rings.SubmissionRing.SqReady | lib/liburing/include/liburing.h:2114-2136 | ready entries and free space are the length of the queue and what is left of the ring |
| Rings.SubmissionRing.KernelTake | lib/liburing/liburing.cpp:1531-1554 | the kernel side sees flushed entries in the order in which they were handed out |
| Rings.PeekDropsOnlyTimeouts | lib/liburing/include/liburing.h:2227-2267 | a peek discards a run of internal timeouts from the front and nothing else, up to the first other completion, the first error or the end, and reports that one, its error and the number that was there |
| Rings.CompletionRing.PeekCqe | lib/liburing/include/liburing.h:2227-2267 | error, completion, count and remaining queue of a peek are those of its specification on the queue |
| Rings.CompletionRing.CqAdvance | lib/liburing/include/liburing.h:1205-1216 | advancing by n drops the n oldest completions |
| Rings.CompletionRing.CqReady | lib/liburing/include/liburing.h:2158-2161 | the number of completions in the ring |
| Rings.CompletionRing.KernelPost | lib/liburing/include/liburing.h:2167-2170 | a completion goes to the end of ring and overflow list together, and what is ready stays ready |
| Rings.CompletionRing.GetEvents | lib/liburing/liburing.cpp:1476-1483 | moving overflowed completions in changes neither their order nor their number |
| Rings.CompletionRing.PeekBatchCqe | lib/liburing/liburing.cpp:1489-1525 | the oldest min(count, ready) completions in order; none only if the whole queue is empty |
| Rings.CompletionRing.CopyOldest | lib/liburing/liburing.cpp:1502-1510 | the loop over wrapping counters copies the n oldest completions |
| IoUrings.TasksOfMeans | include/HXLibs/coroutine/loop/EventLoop.hpp:166-176 | each completion wakes its coroutine once, in its turn and with its own result, unless it is cancelled or has no coroutine; nothing else is woken |
| IoUrings.IoUring.SubmitAndWait | include/HXLibs/coroutine/loop/EventLoop.hpp:149-150 | everything handed out becomes visible to the kernel, and what it does then is done to all of it |
| IoUrings.KernelKeeps | include/HXLibs/coroutine/loop/EventLoop.hpp:149-150 | the kernel of the model neither loses an entry nor makes one up |
| IoUrings.KernelCanServeAll | include/HXLibs/coroutine/loop/EventLoop.hpp:149-150 | and it can take and complete everything that it sees |
| IoUrings.IoUring.GetSqe | include/HXLibs/coroutine/loop/EventLoop.hpp:188-213 | the counter grows exactly with the entries handed out; a full ring is submitted first, and the code throws exactly if the kernel has then taken nothing |
| IoUrings.IoUring.PrepNop | include/HXLibs/coroutine/loop/EventLoop.hpp:124-132 | an entry without a task is counted like any other and submitted at once, also when the submission is answered with an error |
| IoUrings.IoUring.ReapLoop | include/HXLibs/coroutine/loop/EventLoop.hpp:164-176 | the loop ends with everything that is ready, and collects the tasks of all but cancelled and empty completions, in order |
| IoUrings.IoUring.Run | include/HXLibs/coroutine/loop/EventLoop.hpp:138-185 | everything handed out is submitted; if the kernel serves all of it and the completions fit into the ring, the batch holds every entry and every coroutine is resumed; each completion leaves the counter once; a timeout or error reaps nothing |
| IoUrings.IoUring.CounterIsExact | include/HXLibs/coroutine/loop/EventLoop.hpp:134-216 | the counter is entries handed out minus completions reaped; it is zero exactly if every entry has been reaped as often as handed out |
| EventLoops.InsertNodeKeeps | include/HXLibs/coroutine/loop/TimerLoop.hpp:55-60 | inserting a timer keeps the tree ordered and adds exactly the new node |
| EventLoops.EraseNodeKeeps | include/HXLibs/coroutine/loop/TimerLoop.hpp:90-94 | erasing a node keeps the tree ordered and removes exactly that node |
| EventLoops.ActKeeps | include/HXLibs/coroutine/loop/TimerLoop.hpp:78-128 | adding, yielding and destroying keep the containers in order, every node in exactly one place (suspended on a timer, on a yield, resumed, destroyed), and erase only nodes that exist |
| EventLoops.FireOneKeeps | include/HXLibs/coroutine/loop/TimerLoop.hpp:38-47 | whatever the resumed coroutine does, its node is still there to be erased afterwards; exactly the least due node is resumed, and only nodes its script named are destroyed |
| EventLoops.FireTimersFires | include/HXLibs/coroutine/loop/TimerLoop.hpp:37-47 | the loop ends with an empty tree, or with the positive gap from the last time read to the least expiry, when nothing left was due |
| EventLoops.YieldOneKeeps | include/HXLibs/coroutine/loop/TimerLoop.hpp:48-52 | whatever the resumed coroutine does, the front popped afterwards is the node that was resumed |
| EventLoops.RunYieldsRuns | include/HXLibs/coroutine/loop/TimerLoop.hpp:48-52 | yields are resumed from the front, those added meanwhile too, until none is left; no node is lost |
| EventLoops.RunTimersRuns | include/HXLibs/coroutine/loop/TimerLoop.hpp:37-53 | both loops together: nodes are conserved, a returned duration is the exact gap, no duration means that no yield is left |
| EventLoops.NothingIsLost | include/HXLibs/coroutine/loop/TimerLoop.hpp:37-128 | a node that waited still waits, or has been resumed since, or has been destroyed since by an action that named it; only one of these |
| EventLoops.DestroyedAtOnce | include/HXLibs/coroutine/loop/TimerLoop.hpp:90-94 | destroying a suspended awaiter takes effect, whatever else the coroutine does in the same stretch |
| EventLoops.DestroyedForGood | include/HXLibs/coroutine/loop/TimerLoop.hpp:90-128 | a coroutine destroyed while it waited is never resumed in any run, and its node is gone |
| EventLoops.ErrorsShow | include/HXLibs/coroutine/loop/TimerLoop.hpp:42-51 | erasing a node that is not there, and popping another one than meant, would show in the state |
| EventLoops.WaitEndsWithAFinish | include/HXLibs/coroutine/loop/ThreadLoop.hpp:64-75 | false at once exactly without thread tasks; else the wait sits out spurious wakes and answers true at the first look after a notify, with the counter lowered by those that notified |
| EventLoops.FinishesCount | include/HXLibs/coroutine/loop/ThreadLoop.hpp:33-51 | every finish of a thread task counts, if at no point more finish than are at work |
| EventLoops.RunIoTakes | include/HXLibs/coroutine/loop/EventLoop.hpp:164-184 | a batch of n completions takes n off the counter, as far as there are any, and the coroutines it wakes are resumed one after another, in order |
| EventLoops.CountersBalance | include/HXLibs/coroutine/loop/EventLoop.hpp:134-216 | in every run, the I/O and the thread tasks pending are those at its start, plus what the coroutines that were resumed have submitted or started, less what has been taken or has finished; on exit they are equal |
| EventLoops.PassDecides | include/HXLibs/coroutine/loop/EventLoop.hpp:464-475 | a pass serves I/O whenever some is pending, also while a timer is not yet due; the loop exits exactly without a timer to wait for, I/O and thread tasks |
| EventLoops.RunKeeps | include/HXLibs/coroutine/loop/EventLoop.hpp:464-475 | every run keeps each node in exactly one place and resumes none twice, only least due timers and fronts of the yield queue; on exit no I/O, thread task or yield is pending, and every node but the timers left has been resumed or destroyed |
| EventLoops.RunLosesNothing | include/HXLibs/coroutine/loop/EventLoop.hpp:464-475 | whatever waits when a run starts waits when it ends, or has been resumed in it, or was destroyed by an action of it that named it |
| EventLoops.StillRunEnds | include/HXLibs/coroutine/loop/EventLoop.hpp:464-475 | from every point of every run, once the coroutines ask for nothing more, the loop comes to its end with every I/O taken, every task finished and everything that waited resumed |
| EventLoops.TimersLeftAtExit | include/HXLibs/coroutine/loop/EventLoop.hpp:464-475 | the timers an exit leaves are exactly those added after the tree was last found empty and not destroyed; so none is left exactly when all of those have been destroyed |
| EventLoops.NoSleepNoTimerLeft | include/HXLibs/coroutine/loop/EventLoop.hpp:464-475 | if no coroutine sleeps in a stretch in which it is resumed from the yield queue, an exit leaves no timer |
| EventLoops.TimerLeftBehind | include/HXLibs/coroutine/loop/TimerLoop.hpp:48-52 | a coroutine that yields and then sleeps: the loop exits with its timer pending |
| EventLoops.EventLoop.Do | include/HXLibs/coroutine/loop/TimerLoop.hpp:78-128 | on the members of the loop, an action adds, appends or erases exactly the node asked for |
| EventLoops.EventLoop.TimersRun | include/HXLibs/coroutine/loop/TimerLoop.hpp:37-53 | the two loops on the members compute result and state of their specification |
| EventLoops.EventLoop.YieldsRun | include/HXLibs/coroutine/loop/TimerLoop.hpp:48-52 | the second loop on the members computes result and state of its specification |
| EventLoops.EventLoop.ThreadsRun | include/HXLibs/coroutine/loop/ThreadLoop.hpp:64-75 | the wait on the condition computes the answer of its specification, which WaitEndsWithAFinish determines |
| EventLoops.EventLoop.Run | include/HXLibs/coroutine/loop/EventLoop.hpp:464-475 | the loop on the members computes the run of its specification; an exit leaves no I/O, thread task or yield |
| SerialExecutors.StepKeeps | include/HXLibs/coroutine/executor/SerialExecutor.hpp:79-121 | every step keeps order and exclusion, and that the caller of an ended task has been continued once or is still owed, and no other |
| SerialExecutors.OneAtATimeInOrder | include/HXLibs/coroutine/executor/SerialExecutor.hpp:94-108 | in every run, tasks start in the order of the calls, each only after all before it have ended |
| SerialExecutors.ContinuedOnceAfterTask | include/HXLibs/coroutine/executor/SerialExecutor.hpp:79-121 | in every run, no caller is continued twice or before its own task has ended |
| SerialExecutors.CallerGoesFirst | include/HXLibs/coroutine/executor/SerialExecutor.hpp:94-108 | when the task of a suspended caller ends, that caller goes on at once, and no task starts before it gives control back |
| SerialExecutors.FirstCallerGoesLater | include/HXLibs/coroutine/executor/SerialExecutor.hpp:94-121 | when the first caller's own task ends with others waiting, the next one starts at once, and the first caller goes on when the frames between them have returned |
| SerialExecutors.EveryRunIsBounded | include/HXLibs/coroutine/executor/SerialExecutor.hpp:79-121 | all steps of a run that have an effect are together at most five for each call |
| SerialExecutors.QuietMeansServed | include/HXLibs/coroutine/executor/SerialExecutor.hpp:94-121 | no step is possible exactly when there is no pump and no caller owed; then the queue is empty, every task has run and every caller has been continued exactly once |
| SerialExecutors.EveryCallerIsContinued | include/HXLibs/coroutine/executor/SerialExecutor.hpp:79-121 | from every point of every run, steps without another call lead there: every caller has then been continued exactly once |
| SerialExecutors.SerialExecutor.Serial | include/HXLibs/coroutine/executor/SerialExecutor.hpp:79-121 | on the members, a call starts its task at once exactly if nothing runs, and else queues it behind all others |
| SerialExecutors.SerialExecutor.TaskEnds | include/HXLibs/coroutine/executor/SerialExecutor.hpp:94-108 | the end of a task continues its own caller or hands the pump on |
| SerialExecutors.SerialExecutor.CallerReturns | include/HXLibs/coroutine/executor/SerialExecutor.hpp:100-108 | when the continued caller gives control back, the task at the front of the queue starts, or with an empty queue the executor stops |
| SerialExecutors.SerialExecutor.Drive | include/HXLibs/coroutine/executor/SerialExecutor.hpp:79-121 | any sequence of calls and steps on the members is the run of the specification and keeps its invariant |
| Joins.WhenAny.AwaitSuspend | include/HXLibs/coroutine/awaiter/WhenAny.hpp:68-86 | start-up stops at the first child that completes synchronously, with its answer, and starts none after it |
| Joins.WhenAny.Finish | include/HXLibs/coroutine/awaiter/WhenAny.hpp:89-120 | a completing child continues the parent with its own value or exception, or during start-up marks that it has |
| Joins.AnySpecMeans | include/HXLibs/coroutine/awaiter/WhenAny.hpp:68-146 | the answer is the value of the first child to complete with its index, or its exception; there is none exactly if no child completes |
| Joins.WhenAny.Run | include/HXLibs/coroutine/awaiter/WhenAny.hpp:68-146 | the parent is continued exactly once, on the first completion, with that child's index and value or exception; not at all if none completes |
| Joins.UnfinishedUpdate | include/HXLibs/coroutine/awaiter/WhenAll.hpp:101 | a child that finishes lowers the number of unfinished children by one, which was not zero |
| Joins.WhenAll.Finish | include/HXLibs/coroutine/awaiter/WhenAll.hpp:98-105 | cnt stays the number of unfinished children, and the slot of the child gets its outcome |
| Joins.WhenAll.Run | include/HXLibs/coroutine/awaiter/WhenAll.hpp:61-130 | the parent is continued exactly once if every child completes, else not; then slot i holds the outcome of child i |
| ThreadPools.LockStep | include/HXLibs/container/ThreadPool.hpp:241-255 | in every step, the workers between lock and unlock are exactly the holder of the mutex |
| ThreadPools.SeenStep | include/HXLibs/container/ThreadPool.hpp:244-254 | what a worker saw in its wait predicate still holds when it acts on it, so no pop meets an empty queue |
| ThreadPools.FifoStep | include/HXLibs/container/ThreadPool.hpp:145-254 | the task queue is always the part of the log of tasks that has not been dequeued, in order |
| ThreadPools.OnceStep | include/HXLibs/container/ThreadPool.hpp:254-257 | a dequeued task is being called by exactly one worker or has been called once |
| ThreadPools.StoredStep | include/HXLibs/container/ThreadPool.hpp:134-143 | the results that are ready are exactly those of the tasks that have returned and stored one, and no continuation returned before its own was |
| ThreadPools.LeaveStep | include/HXLibs/container/ThreadPool.hpp:219-303 | each worker that leaves uses up exactly one unit of _delCnt, whatever the manager writes meanwhile |
| ThreadPools.GrantIsExact | include/HXLibs/container/ThreadPool.hpp:218-219 | a store of a units overwrites what was left: in every run up to the next store, the workers that leave and the units left are a together, so no more than a leave |
| ThreadPools.LeavesWhenAsked | include/HXLibs/container/ThreadPool.hpp:240-253 | an idle worker that gets the lock while there are units leaves: it uses up one unit, queues its id, and changes nothing else |
| ThreadPools.RegisterStep | include/HXLibs/container/ThreadPool.hpp:251-279 | every id queued for deletion belongs to a finished thread in _workers or one just being put there, and is queued once |
| ThreadPools.QueuedStep | include/HXLibs/container/ThreadPool.hpp:251-279 | no thread that has left is forgotten: until it is joined its id is queued, or is the one being joined |
| ThreadPools.QueuedIsJoined | include/HXLibs/container/ThreadPool.hpp:269-279 | the thread whose id is first in the queue is joined and taken off _workers, and nothing else changes |
| ThreadPools.MadeIsRegistered | include/HXLibs/container/ThreadPool.hpp:236-264 | a thread that is made starts at the top of its loop and is put into _workers |
| ThreadPools.Safety | include/HXLibs/container/ThreadPool.hpp:198-303 | in every interleaving: no pop of an empty queue, no "iterator failure", no task called twice, units granted equal workers gone plus units left |
| ThreadPools.ErrorsShow | include/HXLibs/container/ThreadPool.hpp:254-275 | a pop of an empty queue and an id that is not in _workers would show in the state |
| ThreadPools.PopsInOrder | include/HXLibs/container/ThreadPool.hpp:254 | in every run, a worker that pops gets the oldest task that no worker had before |
| ThreadPools.Refines | include/HXLibs/container/ThreadPool.hpp:236-257 | every step of the pool is invisible to its tasks, or enqueues one, or dequeues the oldest, or ends one whose dependency is ready |
| ThreadPools.OldestCanFinish | include/HXLibs/container/ThreadPool.hpp:372-433 | if no result that is waited for gets lost, the oldest task under call never waits: what it waits for was dequeued before it, has ended and is ready |
| ThreadPools.CallsNeverBlockEachOther | include/HXLibs/container/ThreadPool.hpp:372-433 | in every run whose log loses no result that is waited for, some task under call can return whenever there is one |
| ThreadPools.WorkIsUsedUp | include/HXLibs/container/ThreadPool.hpp:236-264 | in every run of the workers, the steps that dequeue a task or end one are exactly the work used up, so they are bounded by what there was |
| ThreadPools.SomeStepsAdvance | include/HXLibs/container/ThreadPool.hpp:236-264 | from every reachable state of a pool that runs and does not shrink, with a worker that stays and work left, finitely many steps of workers use up one unit of it |
| ThreadPools.AllJobsGetCalled | include/HXLibs/container/ThreadPool.hpp:236-264 | ... and so finitely many steps of workers call every task to its end |
| ThreadPools.LostIsLost | include/HXLibs/container/ThreadPool.hpp:395-405 | a continuation of a task that returned without a result is never called to its end, whatever happens |
| ThreadPools.CompletableIffSound | include/HXLibs/container/ThreadPool.hpp:372-433 | the workers can call every task to its end exactly when no task that another one waits for loses its result |
| ThreadPools.StuckForEver | include/HXLibs/container/ThreadPool.hpp:395-405 | one worker, two tasks, the first of which loses its result: the worker hangs in the second for ever, with the pool running |
| ThreadPools.StuckIsReached | include/HXLibs/container/ThreadPool.hpp:127-148 | that pool is reached from one that has just been started |
| ThreadPools.StoppedForGood | include/HXLibs/container/ThreadPool.hpp:180 | once the destructor has stored false, _isRun is false in every continuation of the run |
| ThreadPools.AtMostOneTaskAfterStop | include/HXLibs/container/ThreadPool.hpp:240-254 | from then on at most one task is still taken, whatever happens |
| ThreadPools.LastTaskOfWorker | include/HXLibs/container/ThreadPool.hpp:240-257 | a worker that is calling a task then takes no other one, and returns without the lock |
| ThreadPools.ReturnsWhenStopped | include/HXLibs/container/ThreadPool.hpp:240-249 | an idle worker that gets the lock then returns, and leaves tasks, units and everything else alone |
| ThreadPools.DestructorJoinsOnce | include/HXLibs/container/ThreadPool.hpp:179-191 | the destructor joins no thread twice exactly if no id of a thread that left is still queued |
| ThreadPools.JoinedTwice | include/HXLibs/container/ThreadPool.hpp:179-191 | a run of a pool with one worker that leaves just before the pool is destroyed, and is joined twice |
| ThreadPools.ThreadPool.WaitForWork | include/HXLibs/container/ThreadPool.hpp:240-249 | loop condition, lock and wait predicate on the pool's members are the steps of the machine |
| ThreadPools.ThreadPool.TryToLeave | include/HXLibs/container/ThreadPool.hpp:287-303 | the compare-and-swap loop on _delCnt and the entry in _delIdQueue are the steps of the machine |
| ThreadPools.ThreadPool.TakeAndCall | include/HXLibs/container/ThreadPool.hpp:254-257 | popping the front and calling it are the steps of the machine |
| ThreadPools.ThreadPool.AddTask | include/HXLibs/container/ThreadPool.hpp:127-148 | the task goes to the end of queue and log |
| ThreadPools.ThreadPool.StoreDelCnt | include/HXLibs/container/ThreadPool.hpp:218-219 | the manager's store overwrites the units not yet used: the counter is then the number stored |
| ThreadPools.ThreadPool.TakeDelId | include/HXLibs/container/ThreadPool.hpp:269-276 | taking an id off the queue ends in a join or, for an unknown id, in the exception |
| ThreadPools.ThreadPool.Drive | include/HXLibs/container/ThreadPool.hpp:198-303 | any interleaving of calls on the pool object is a run of the machine, keeps all invariants and reaches neither error |
| FutureResults.ResultCell.Get | include/HXLibs/container/FutureResult.hpp:76-81 | the value is moved out and an exception stays, as the next reader finds it |
| FutureResults.ResultCell.RunTask | include/HXLibs/container/ThreadPool.hpp:134-143 | the result is ready on every path and holds the value or the exception |
| FutureResults.ResultCell.RunVoidTask | include/HXLibs/container/ThreadPool.hpp:135-143 | the cell is ready before the function has run: a reader in between sees success, rightly exactly if the function does not throw; a later reader sees what it did |
| FutureResults.ResultCell.RunThenTry | include/HXLibs/container/ThreadPool.hpp:372-433 | the result of a continuation is ready on all paths but one, which leaves it untouched, and holds what its specification says |
| FutureResults.StageIsMeant | include/HXLibs/container/ThreadPool.hpp:392-427 | a continuation gives what is documented exactly if it does not answer with an error Try of its own; its result is lost exactly if it does so after a success |
| FutureResults.ChainIsMeant | include/HXLibs/container/ThreadPool.hpp:372-433 | for chains of any length, all results are the documented ones exactly if every function passes errors on |
| FutureResults.LostError | include/HXLibs/container/ThreadPool.hpp:395-405 | a concrete function for which the result is lost after a success and wrong after a failure |
| FutureResults.RunChain | include/HXLibs/container/ThreadPool.hpp:372-433 | all continuations attached, each run once its predecessor is ready: a cell gets ready exactly if the chain up to it has a result; the first that does not, and all behind it, stay untouched |
| Utf8Encoding.DecodesBack | include/HXLibs/log/serialize/ToString.hpp:79-94 | the octets of a scalar value decode to it by the grammar in section 4 of RFC 3629, whatever follows |
| Utf8Encoding.DecodesOnly | include/HXLibs/log/serialize/ToString.hpp:79-94 | what decodes by that grammar is a scalar value, and the octets read are the ones written for it |
| Utf8Encoding.SurrogateIsIllFormed | include/HXLibs/log/serialize/ToString.hpp:84-87 | the three octets written for a surrogate are not UTF-8 |
| Utf8Encoding.AppendOctets | include/HXLibs/log/serialize/ToString.hpp:78-94 | shifts, masks and tags give the octets of the table in section 3 of RFC 3629 |
| Utf8Encoding.EncodeDecodes | include/HXLibs/log/serialize/ToString.hpp:47-98 | the encoding of a text decodes to the text if it has no surrogate, and else is not UTF-8 |
| Utf8Encoding.DecodeEncodes | include/HXLibs/log/serialize/ToString.hpp:47-98 | every well-formed octet sequence is the encoding of what it decodes to |
| Utf8Encoding.FromUtf32 | include/HXLibs/log/serialize/ToString.hpp:67-75 | the UTF-32 branch accepts exactly the texts of scalar values and gives their encoding |
| Utf8Encoding.Encode16Decodes | include/HXLibs/log/serialize/ToString.hpp:64-66 | every text of scalar values comes back from its encoding by section 2.1 of RFC 2781 |
| Utf8Encoding.Decode16Encodes | include/HXLibs/log/serialize/ToString.hpp:64-66 | every well-formed sequence of units is the encoding of what it decodes to |
| Utf8Encoding.GrinningFace | include/HXLibs/log/serialize/ToString.hpp:64-94 | U+1F600 as a surrogate pair and as four octets |
| Utf8Encoding.FromUtf16 | include/HXLibs/log/serialize/ToString.hpp:53-66 | the UTF-16 encoding of a text gives its UTF-8 encoding; other input gives the encoding of what is read, or the error met |
| Utf8Encoding.ErrorsAreBrokenPairs | include/HXLibs/log/serialize/ToString.hpp:55-62 | it throws exactly if some high surrogate has no low one behind it, as truncated exactly if the only such one ends the input |
| Utf8Encoding.BranchesAgree | include/HXLibs/log/serialize/ToString.hpp:53-66 | well-formed UTF-16 gives the octets of the UTF-32 branch for the text it encodes, which decode to that text; other input is refused or gives octets that are not UTF-8 |
| Utf8Encoding.WellFormedHasNoLoneLow | include/HXLibs/log/serialize/ToString.hpp:63-66 | accepted input is well-formed by section 2.2 of RFC 2781 exactly if it has no lone low surrogate |
| Utf8Encoding.LoneLowIsEncoded | include/HXLibs/log/serialize/ToString.hpp:63-66 | a concrete lone low surrogate that is accepted, and its ill-formed octets |
| RadixTrees.RadixTree.Descend | include/HXLibs/container/RadixTree.hpp:83-90 | a step of the walk, with the child made if it is missing, keeps the tree free of sharing and its contents |
| RadixTrees.RadixTree.Insert | include/HXLibs/container/RadixTree.hpp:81-92 | the tree stands for the old map with the path set to the value, and stays a tree |
| RadixTrees.RadixTree.Find | include/HXLibs/container/RadixTree.hpp:99-110 | the value stored at exactly the path, and nothing for any other path, proper prefixes included |
| RadixTrees.LastInsertWins | include/HXLibs/container/RadixTree.hpp:81-110 | after any insertions, a path holds the last value inserted at it, and nothing if there was none |
| RadixTrees.InsertAll | include/HXLibs/container/RadixTree.hpp:81-92 | after any sequence of insertions the heap is a tree without sharing that stands for the map of the last insertions |
| RadixTrees.RouterTree.Insert | include/HXLibs/net/router/RouterTree.hpp:108-127 | a route is stored under its pattern, where a segment in braces stands for any one segment |
| RadixTrees.RouteMeans | include/HXLibs/net/router/RouterTree.hpp:108-159 | a route takes a request segment by segment: each by its own name, one in braces or "*" any; "**" at its end takes one or more |
| RadixTrees.BestByName | include/HXLibs/net/router/RouterTree.hpp:146-153 | the best match below the child of the segment's own name is the best match overall |
| RadixTrees.BestByStar | include/HXLibs/net/router/RouterTree.hpp:146-153 | without a match there, the best one below "*" is the best overall |
| RadixTrees.NoneBelow | include/HXLibs/net/router/RouterTree.hpp:138-159 | if neither child leads to a match and "**" holds nothing, no stored route matches |
| RadixTrees.RouterTree.FindFrom | include/HXLibs/net/router/RouterTree.hpp:138-159 | the search with backtracking from any node finds the most specific matching route below it, or there is none |
| RadixTrees.RouterTree.Find | include/HXLibs/net/router/RouterTree.hpp:129-135 | an endpoint is found exactly if some stored route matches, and it is that of the most specific one; else the handler for unknown routes is taken |
| SqlTexts.ExpandExpr | include/HXLibs/db/sql/Dml.hpp:323-350 | an operand is printed as its text; the placeholders printed are the parameters collected, in order, also where a comma or blank is taken back |
| SqlTexts.ExprToString | include/HXLibs/db/sql/Dml.hpp:353-383 | an expression is printed as its text, whose placeholders are its collected parameters, in order |
| SqlTexts.TextReads | include/HXLibs/db/sql/Dml.hpp:323-383 | taken apart into words, quoted texts, placeholders, brackets and commas, the text of any expression is its left operand, its operator and its right operand, in tree order |
| SqlTexts.PrintedExamples | include/HXLibs/db/sql/Dml.hpp:353-383 | a comparison and operators with one operand, as printed |
| SqlTexts.PrintedList | include/HXLibs/db/sql/Dml.hpp:323-369 | a list of a text and a placeholder, as printed |
| SqlParams.AtParamBindName | include/HXLibs/db/sql/Dml.hpp:429-445 | the value of the first bind that has the parameter's name |
| SqlParams.Pick | include/HXLibs/db/sql/Dml.hpp:751-774 | the k-th value of a clause belongs to its k-th parameter, by position or by name |
| SqlParams.ClauseRead | include/HXLibs/db/sql/Dml.hpp:505-774 | the text of a clause reads as its keywords, then its expression, its list or its bounds |
| SqlParams.StatementReads | include/HXLibs/db/sql/Dml.hpp:505-912 | the text of a statement reads as what is selected, from where, and clause after clause |
| SqlParams.Aligned | include/HXLibs/db/sql/Dml.hpp:467-482 | through the whole chain, the value at place i is the one given for the i-th placeholder of the statement |
| SqlParams.WholeChain | include/HXLibs/db/sql/Dml.hpp:505-774 | the chain of all five clauses leaves nothing out |
| SqlParams.AlignedExactly | include/HXLibs/db/sql/Dml.hpp:537-774 | with clauses left out, the values bound answer to the placeholders of the statement exactly if no clause before the last gap has a parameter |
| SqlParams.LimitInPlaceOfWhere | tests/db/MakeSql.cpp:122-125 | where, groupBy, orderBy, limit with parameters in the first and the last: the limit is bound to the place of the where, the place of the limit gets nothing |
| SqlParams.Statement.Add | include/HXLibs/db/sql/Dml.hpp:537-774 | a clause adds its text with its placeholders, unless the statement is cached, when only lists of groupBy and limits are printed again, and its values behind those before it |
| SqlParams.Statement.Exec | include/HXLibs/db/sql/Dml.hpp:467-482 | the text is prepared once, and value Idx is bound to place Idx + 1 and nothing else |
| SqlParams.Statement.Run | include/HXLibs/db/sql/Dml.hpp:467-912 | for every chain the builders accept, the text prepared at the first use is that of the statement, and every use binds the values of the clauses since the last one left out; they answer to the text prepared if none was |
| CoSharedPtrs.Memory.Make | include/HXLibs/container/CoSharedPtr.hpp:91-93 | a fresh block with one holder; every other pointer holds what it held |
| CoSharedPtrs.Memory.Copy | include/HXLibs/container/CoSharedPtr.hpp:99-103 | the copy holds the same block, whose counter counts it |
| CoSharedPtrs.Memory.Move | include/HXLibs/container/CoSharedPtr.hpp:105-107 | the block changes hands and the moved-from pointer is empty |
| CoSharedPtrs.Memory.AssignCopy | include/HXLibs/container/CoSharedPtr.hpp:109-112 | the target holds what the source holds, also for self-assignment, and the block let go is deleted if it was the last |
| CoSharedPtrs.Memory.AssignMove | include/HXLibs/container/CoSharedPtr.hpp:114-117 | the same for moves; a pointer moved into itself keeps its block |
| CoSharedPtrs.Memory.Reset | include/HXLibs/container/CoSharedPtr.hpp:151-153 | the pointer holds a fresh block and lets go of the old one |
| CoSharedPtrs.Memory.Swap | include/HXLibs/container/CoSharedPtr.hpp:155-157 | two pointers exchange blocks and no counter changes |
| CoSharedPtrs.Memory.Destroy | include/HXLibs/container/CoSharedPtr.hpp:159-177 | a pointer that goes lets go of its block |
| CoSharedPtrs.Memory.NothingDanglesNothingLeaks | include/HXLibs/container/CoSharedPtr.hpp:58-177 | no pointer holds a deleted block, a block is deleted exactly if nothing holds it, and with no pointer left each has been deleted exactly once |
| CoSharedPtrs.BasicOperations | include/HXLibs/container/CoSharedPtr.hpp:91-177 | what a new, made or copied pointer, two swapped ones and a destroyed one are meant to hold; all others hold what they held |
| CoSharedPtrs.CopyAndSwap | include/HXLibs/container/CoSharedPtr.hpp:105-157 | moves, assignments and reset mean what a temporary that is swapped and destroyed makes of them, also for a pointer and itself |
| CoSharedPtrs.Run | include/HXLibs/container/CoSharedPtr.hpp:91-177 | over any sequence of operations on any number of pointers, each holds the block it would hold without counting, each counter is the number of holders, and each block is deleted once if it has none |
| CoSharedPtrs.HeldIsAlive | include/HXLibs/container/CoSharedPtr.hpp:58-177 | in every such run, a block that some pointer is meant to hold has not been deleted |
| StringUtils.Find | include/HXLibs/utils/StringUtils.hpp:65 | the first occurrence from a position on |
| StringUtils.JoinRestores | include/HXLibs/utils/StringUtils.hpp:56-91 | joining the parts with the delimiter restores the string |
| StringUtils.PartsTile | include/HXLibs/utils/StringUtils.hpp:64-90 | each part stands where it says and ends at a delimiter, the next one starts behind that, the last one ends the string |
| StringUtils.PartsAreClean | include/HXLibs/utils/StringUtils.hpp:65-76 | the delimiter does not start inside a part, so no part contains it and nothing is split too late |
| StringUtils.PositionsIncrease | include/HXLibs/utils/StringUtils.hpp:101-135 | positions strictly increase and locate each part, also when empty parts are skipped |
| StringUtils.NonEmptyKeepsOrder | include/HXLibs/utils/StringUtils.hpp:113-117 | skipping keeps exactly the parts that are not empty, in their order |
| StringUtils.Split | include/HXLibs/utils/StringUtils.hpp:56-91 | the loop appends the parts, or the non-empty ones, to what the result held before |
| StringUtils.SplitWithPos | include/HXLibs/utils/StringUtils.hpp:101-135 | the same with the position of each part |
| StringUtils.ToLower | include/HXLibs/utils/StringUtils.hpp:161-173 | eight bytes at a time and the rest all get bit 5; this is lowering of letters exactly if each byte is a capital letter or has the bit |
| StringUtils.ToUpper | include/HXLibs/utils/StringUtils.hpp:179-191 | on the padded copy, cut back afterwards, all bytes lose bit 5 and the length stays; this is raising of letters exactly if each byte is a small letter or has the bit clear |
| BaseConverter.HexadecimalConversion | include/HXLibs/utils/NumericBaseConverter.hpp:37-46 | the digits collected from the right and reversed are the usual numeral |
| BaseConverter.HexLetters | include/HXLibs/utils/NumericBaseConverter.hpp:37-46 | digits and capital letters only, and a leading zero for zero alone |
| BaseConverter.StrToNum | include/HXLibs/utils/NumericBaseConverter.hpp:57-83 | with all wrap-around on the way, the loop from the right gives the positional value from the left, modulo the width |
| BaseConverter.CharacterCounts | include/HXLibs/utils/NumericBaseConverter.hpp:57-83 | what each character counts for in each base, and that texts count positionally |
| BaseConverter.RoundTrip | include/HXLibs/utils/NumericBaseConverter.hpp:37-83 | every 64-bit number comes back from its hexadecimal text, in upper case or lower |
| BaseConverter.CaseDoesNotMatter | include/HXLibs/utils/NumericBaseConverter.hpp:62-77 | in bases above ten letter case does not change the value |
| BaseConverter.CaseMattersBelow | include/HXLibs/utils/NumericBaseConverter.hpp:62-80 | for bases from 2 to 36, letter case never changes the value exactly if the base is above ten |
| BaseConverter.CaseMattersForCapitals | include/HXLibs/utils/NumericBaseConverter.hpp:78-80 | in bases up to ten, lowering keeps the value of a text exactly if it has no capital letter |
| BaseConverter.CaseOfResults | include/HXLibs/utils/NumericBaseConverter.hpp:57-83 | the same of the results, which are cut to the width of the type |
| BaseConverter.StrToNumSigned | include/HXLibs/utils/NumericBaseConverter.hpp:57-83 | for a signed type, there is a result exactly if no summand, sum or power on the way overflows, and it is the positional value; a numeral is converted exactly if the base to its length fits the type |
| BaseConverter.TenDigitsOverflow | include/HXLibs/utils/NumericBaseConverter.hpp:57-83 | so no decimal numeral of ten digits is converted to a 32-bit int, though one followed by nine zeros fits |

## Left out

- PerfectHash.MakeTable: each seed search draws at most `fuel` seeds, because the source may search for ever; what is proved holds for every bound, and without a table some search has found none of its `fuel` seeds to do.
- PerfectHash.SortBucketRefArr: the library sort is written out as an insertion sort on indices; buckets are sequences in an array rather than an array of fixed-capacity vectors.
- PerfectHash.MakeCHashMap: at least one pair, as the factory function demands; an empty map has a table of size zero in the source and no lookup. `CHashMap::at` on absent keys is not modelled: its lookup may read the empty mark as an index.
- IoUrings.IoUring.Run: handles destroyed earlier in the same batch of completions are not modelled; the kernel completes each entry it takes once, and `IORING_FEAT_EXT_ARG` is present, so that waiting adds no entry.
- IoUrings.IoUring.GetSqe: a thrown exception is the answer `ok == false`.
- EventLoops.EventLoop.ThreadsRun: how many tasks notify before each look at the counter is an input; the mutex is not modelled.
- EventLoops.EventLoop.Run: a coroutine that calls `run` again, and pool threads that resume coroutines (`FutureResult::via`), are not modelled; passes are supplied as a finite list, so that a loop which never exits is spoken of by its finite parts.
- SerialExecutors.SerialExecutor.Drive: `clear()`, tasks that throw, and the destruction of tasks that are queued are not modelled: the code keeps neither exclusion nor the queue there. That tasks end and callers give control back is not up to the executor; what is proved is that nothing else is ever missing.
- Joins.WhenAny.Run: children that resume one another are not modelled.
- ThreadPools.SomeStepsAdvance: a worker that waits on the condition variable may look at its predicate again at any time; that `notify_one` reaches it is not proved, since the code notifies without the mutex. That the scheduler takes the steps which are possible is not part of the model.
- ThreadPools.Safety: thread ids are never used again; `_runCnt`, and whether the strategy keeps a minimum of threads are not modelled. Atomic operations are sequentially consistent.
- ThreadPools.OldestCanFinish: user functions end and wait for nothing but the result their continuation is attached to. Whether a task stores its result is fixed when it is enqueued (`Job.stores`); it is false exactly where `FutureResults.ResultCell.RunThenTry` answers that the behaviour is undefined.
- FutureResults.ResultCell.RunThenTry: waiting is a precondition (the module of the pool shows when it ends); a function that returns a `FutureResult` owns no result and is left out.
- RadixTrees.RouterTree.Insert: the source repeats the insertion loop of the trie in the router; here the router has a trie. Empty segments are excluded, as the source reads their first character.
- SqlTexts.ExpandExpr: an empty list takes back a character printed before it; that an expression with an empty list inside is printed as its text is not stated, only its placeholders.
- SqlTexts.ExprToString: placeholders are tokens that remember their parameter; the meaning of the printed SQL (no parentheses, swapped comparisons) is not modelled, nor are types of named binds, which the source does not compare.
- SqlParams.Statement.Run: the chains of where, groupBy, having, orderBy and limit. Joins, INSERT, UPDATE and DELETE, failing binds and a failed preparation are left out.
- CoSharedPtrs.Memory.Make: the public constructor from a raw block takes the block's first count; calling it twice on one block is not modelled. A deleted block stays visible in the model so that its deletions can be counted.
- StringUtils.Split: the delimiter is not empty; with an empty one the source does not end.
- StringUtils.ToLower: the 64-bit words of the source are its eight bytes one after another.
- BaseConverter.StrToNum: characters are below 128: in bases above ten the source indexes a table with them, in the others the sign of `char` decides.
- BaseConverter.StrToNumSigned: types at least as wide as `int`; narrower ones are promoted and cut.
- Utf8Encoding.FromUtf16: both widths of `wchar_t` are modelled on every platform.
- Words: bitwise operators are functions on the binary digits of natural numbers.
- `hashString`, and the hash of strings: the proofs about the hash map hold for every hash function.
- Sockets, files, TLS, HTTP, RPC, SQLite calls, Windows IOCP, memory mapping and system calls: foreign code.
- Reflection, enum and type names, formatting and logging: metaprogramming or easy members.

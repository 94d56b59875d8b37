# Threading exercises, verified

The repository is a set of POSIX threading programs. This project models the ones that are real
protocols and proves what they promise over every interleaving, every run and every input:

| program | modules |
|---|---|
| dining philosophers, monitor and outer-lock versions (Lab9) | `Dining`, `MonitorPhilosophers`, `ForkPhilosophers` |
| bounded message queue with shutdown, semaphore and condition-variable versions (Lab23, Lab24) | `BoundedFifo`, `MessageQueue`, `SemaphoreQueue`, `ConditionQueue` |
| three-mutex hand-off (Lab10) | `HandOff` |
| parallel series, strided and with a barrier (Lab7, Lab8) | `Series`, `BarrierSeries` |
| in-place list sort (Lab16) | `StringSort` |
| caching proxy (Lab31) | `HttpText`, `ProxyConnection`, `RequestRewrite`, `ResponseHeader`, `CacheIndex`, `PollPass`, `CacheStream`, `CacheDecision`, `CacheThreads` |

## How a protocol is modelled

A thread is a program counter and its local variables. `Enabled` says when its next statement can run
(a lock is free, a semaphore is positive, a waiter has been signalled), `Do` what it does to the shared
state, and `Next` lets any enabled thread go. `Runs` holds the two arguments all protocols share: an
inductive invariant holds in every reachable state, and a measure that every step lowers bounds the length
of every run, without any fairness assumption. Constants of the programs (5 philosophers, 50 dishes,
capacity 10, 1000 messages, 30 iterations, 20000 terms a block, the number of threads) are parameters. Code
that works on the heap or on an array (the monitor's array, the dish counter, the queue's linked list, the
sorted list, the proxy's buffers, index and connection table) is a class or an array method of the same
shape, proved against the function the protocol uses.

Both queues are proved against one specification, `BoundedFifo`: a trace of operations in the order of
their critical sections, replayed on a plain sequence with a drop flag. The heap methods of `MessageQueue`
are proved against the same `Apply`.

Some promises are not kept by the code in general. They are stated with the exact condition under which
they hold:

- the monitor excludes neighbours if and only if `pthread_cond_wait` returns only after a signal (or there
  is nothing to contend for), because the wait is guarded by `if` (`MonitorPhilosophers.ExclusionIff`);
  that everybody is served and every run ends does not depend on it (`MonitorPhilosophers.TotalCorrectness`);
- the outer-lock philosophers cannot deadlock if and only if there is not exactly one of them with a dish
  to eat (`ForkPhilosophers.DeadlockFreeIff`);
- the barrier series is exact in every finished run if and only if there is at most one thread
  (`BarrierSeries.ExactIff`), because the catch-up loop restarts at the index used last; one run is exact if
  and only if its threads left their block loops at the same count (`BarrierSeries.ResultIff`);
- the last unlock of the hand-off succeeds for one thread or for none, depending on the iteration count
  modulo 3 (`HandOff.HandOffEnds`); with 30 iterations the child ends owning a mutex;
- the request rewriting lowers the version in the request line if and only if the path does not contain the
  version token (`RequestRewrite.VersionLoweredIff`), and leaves everything else alone if and only if the path
  and the rest, with the bytes behind it in memory, hold no match that is overwritten
  (`RequestRewrite.RequestRewrittenIff`); `GET http://host/HTTP/1.1 HTTP/1.1` becomes
  `GET /HTTP/1.0 HTTP/1.1` (`RequestRewrite.PathLosesItsVersion`);
- all readers of a cache entry are served in the end if and only if the downloading connection is never
  dropped with the entry left as it was (or there are no readers): a failing `recv` drops it without making
  the entry invalid, and the readers wait for ever (`CacheStream.EndsServedIff`, `CacheStream.LossStrands`);
- a response whose header is refused (its status is not 200, or its length over the limit) stays out of the
  cache if and only if nothing behind that header would be accepted by itself, because the connection goes on
  collecting bytes as if a new header were to come (`CacheDecision.RefusedStaysOutIff`,
  `CacheDecision.ServesHidden`);
- several downloads all end with their readers served if and only if none is abandoned like that and no threads
  form a circle in which each reads what another of them downloads, or there are no readers
  (`CacheThreads.CompletesIff`);
- the semaphore queue passes on whole scripts if and only if no script holds an empty message before its last
  one, because a put of an empty message returns 0 like a refusal (`SemaphoreQueue.RestPutsAllIff`).

## Model

| member | source | states |
|---|---|---|
| Dining.LeftIsModular | Lab9/smartPhilo.c:20 | the left neighbour is the seat before, modulo the table size, and undoes Right |
| Dining.RightIsModular | Lab9/smartPhilo.c:21 | the right neighbour is the seat after, modulo the table size, and undoes Left |
| Dining.FoodCounter.constructor | Lab9/smartPhilo.c:81 | the counter starts at the number of dishes |
| Dining.FoodCounter.FoodOnTable | Lab9/smartPhilo.c:80-90 | the dish returned is the counter's new value, which never goes below zero |
| Dining.TakeKeepsAccount | Lab9/smartPhilo.c:84-87 | taking a dish never hands out one that somebody carries or has finished |
| Dining.FinishKeepsAccount | Lab9/smartPhilo.c:66-75 | finishing a carried dish counts it exactly once |
| Dining.KitchenStepKeepsInv | Lab9/smartPhilo.c:80-90 | the lock around the counter keeps dishes unique: one caller inside at a time, every dish on the table, carried by one philosopher or finished once |
| Dining.EverybodyLeft | Lab9/smartPhilo.c:66-78 | once all have left, the dishes from the first to the last were each eaten exactly once and nothing else was |
| MonitorPhilosophers.Monitor.constructor | Lab9/smartPhilo.c:24 | everybody starts thinking |
| MonitorPhilosophers.Monitor.TestSeat | Lab9/smartPhilo.c:107-115 | seats and signals a hungry philosopher if and only if no neighbour eats, and changes nothing else |
| MonitorPhilosophers.Monitor.AskForks | Lab9/smartPhilo.c:92-101 | marks the caller hungry and makes it wait if and only if a neighbour is eating |
| MonitorPhilosophers.Monitor.DownForks | Lab9/smartPhilo.c:117-125 | clears the caller, then tests left and right in that order; reports exactly the neighbours signalled |
| MonitorPhilosophers.StepKeepsCommon | Lab9/smartPhilo.c:60-125 | every step keeps the mutex owner unique and the dishes accounted for, spurious returns or not |
| MonitorPhilosophers.StepKeepsExclusion | Lab9/smartPhilo.c:107-110 | no step makes two adjacent appetites EATING |
| MonitorPhilosophers.StepKeepsHeldUp | Lab9/smartPhilo.c:117-125 | no hand-over is missed, spurious returns or not: after every step a hungry philosopher has an eating neighbour or one that has yet to test it |
| MonitorPhilosophers.StepKeepsMonitor | Lab9/smartPhilo.c:92-125 | the whole monitor invariant is inductive, spurious returns or not; with them only the mark EATING of whoever eats is lost |
| MonitorPhilosophers.NextDecreases | Lab9/smartPhilo.c:66-75 | every step uses up food or brings one philosopher closer to leaving |
| MonitorPhilosophers.SomeoneCanStep | Lab9/smartPhilo.c:98-101 | while somebody is at dinner somebody can step without a spurious return: an unsignalled waiter always has an eating neighbour that can go on |
| MonitorPhilosophers.MonitorProtocol | Lab9/smartPhilo.c:92-125 | in every reachable state: unsignalled waiters are hungry and do not hold the mutex, signalled ones are EATING, a waiter has an eating neighbour whenever the mutex is free, neighbours are never both EATING; without spurious returns also the converse of the first, and neighbours are never both in the eating section |
| MonitorPhilosophers.TotalCorrectness | Lab9/smartPhilo.c:60-125 | spurious returns or not, every run has at most 14 food + 3 n steps, and a run that cannot go on without one has everybody gone and every dish eaten exactly once |
| MonitorPhilosophers.SpuriousReturnSeatsNeighbours | Lab9/smartPhilo.c:98-101 | with two or more seats and three or more dishes, a spurious return reaches a state where neighbours eat together |
| MonitorPhilosophers.ExclusionIff | Lab9/smartPhilo.c:98-101 | neighbours never eat together in any reachable state if and only if there are no spurious returns, at most one seat, or at most two dishes |
| ForkPhilosophers.StepKeepsForks | Lab9/main.c:55-101 | every step keeps each fork with the one philosopher whose position says it holds it, and the outer lock with the one acquiring |
| ForkPhilosophers.StepKeepsKitchen | Lab9/main.c:81-91 | every step keeps the dishes accounted for |
| ForkPhilosophers.ForkOwnerCanStep | Lab9/main.c:67-74 | a fork that is waited for is held by a philosopher past the outer lock, who only releases |
| ForkPhilosophers.ForkProtocol | Lab9/main.c:55-101 | in every reachable state at most one philosopher holds one fork on the way in, every fork has at most one holder, and neighbours never eat together |
| ForkPhilosophers.TotalCorrectness | Lab9/main.c:55-101 | with two or more philosophers every run has at most 9 food + 3 n steps and one that cannot go on has everybody gone and every dish eaten exactly once |
| ForkPhilosophers.AloneWaitsForItself | Lab9/main.c:61-69 | a single philosopher locks the same fork twice and waits for itself |
| ForkPhilosophers.DeadlockFreeIff | Lab9/main.c:61-78 | no reachable state is stuck with philosophers left if and only if there is not exactly one seat, or no dish to eat |
| BoundedFifo.Cut | Lab24/main.c:141-142 | a message is stored as its first 80 characters, whole if it has no more |
| BoundedFifo.ExactlyOnceInOrder | Lab24/main.c:92-160 | the history stored is the history delivered followed by the contents, and the contents never exceed the capacity |
| BoundedFifo.DroppedSinceDrop | Lab24/main.c:48-53 | the queue is dropped exactly from the first drop on |
| BoundedFifo.RefusedIffAfterDrop | Lab24/main.c:87-132 | an operation is refused if and only if a drop came before it |
| MessageQueue.Queue.constructor | Lab24/main.c:38-46 | the new queue represents the empty, undropped queue |
| MessageQueue.Queue.DropQueue | Lab24/main.c:50 | drop changes the flag and nothing else |
| MessageQueue.Queue.PutSection | Lab24/main.c:128-162 | the linked list keeps prev the inverse of next and its length equal to mesCount; the abstract queue gains the cut message at its end or refuses if dropped; broadcasts exactly from empty |
| MessageQueue.Queue.GetSection | Lab24/main.c:87-110 | takes the oldest message off the tail, for a list of one node and for longer ones, or refuses if dropped; the caller gets a prefix as long as its buffer allows; broadcasts exactly from full |
| MessageQueue.Queue.TakeTail | Lab24/main.c:92-100 | takes the last node off the doubly linked list, for a list of one node and for longer ones |
| SemaphoreQueue.InsideFindsWhatItNeeds | Lab23/main.c:66-100 | inside its critical section an undropped get finds a tail and an undropped put finds room; no semaphore goes negative |
| SemaphoreQueue.StepKeepsAccounts | Lab23/main.c:62-125 | every step keeps the token accounts of all three semaphores |
| SemaphoreQueue.StepRefines | Lab23/main.c:69-120 | a thread's step changes the list as the one event it adds to the trace says |
| SemaphoreQueue.DroppedWorkersMove | Lab23/main.c:69-73 | after the drop the extra tokens keep the refusals going: some worker can step until all have exited |
| SemaphoreQueue.SemaphoreAccounting | Lab23/main.c:26-125 | in every reachable state isEmpty plus tokens in flight is capacity minus length, isFull plus tokens in flight is the length, each plus one once drop has posted; global admits one thread, the dropping one included |
| SemaphoreQueue.RefinesFifo | Lab23/main.c:26-125 | the trace of every run replays on the abstract queue to the concrete contents; stored is delivered followed by queued |
| SemaphoreQueue.ProducersKeepOrder | Lab23/main.c:129-141 | what a producer has put and what it still has to put make up its script, in order |
| SemaphoreQueue.LinearisedAtCriticalSection | Lab23/main.c:62-125 | the queue changes only with an event, an event comes only from a thread inside its critical section or the drop, and a call is refused exactly if the flag is set there |
| SemaphoreQueue.NothingSucceedsAfterDrop | Lab23/main.c:69-100 | once the flag is set no step stores or delivers anything |
| SemaphoreQueue.RestsIffDrained | Lab23/main.c:62-158 | undropped, with a consumer and room for a message, no worker can step if and only if all producers are done, the queue is empty and all consumers wait |
| SemaphoreQueue.RestDeliversAll | Lab23/main.c:62-158 | at an undropped rest everything stored was delivered, and every producer has put its script up to its first empty message |
| SemaphoreQueue.EmptyMessageStopsProducer | Lab23/main.c:124-137 | with an empty message before the last of a script a rest is reached in which something was never put, as a put of an empty message returns 0 |
| SemaphoreQueue.RestPutsAllIff | Lab23/main.c:124-137 | every undropped rest has all scripts put whole if and only if no script holds an empty message before its last |
| SemaphoreQueue.DropCascade | Lab23/main.c:36-158 | every run is bounded, and where nothing can step the drop is complete and every producer and consumer has exited |
| ConditionQueue.StepKeepsMutex | Lab24/main.c:70-163 | every step keeps the mutex with the one thread whose position says it holds it |
| ConditionQueue.StepKeepsSleep | Lab24/main.c:103-157 | no wake-up is lost: a step that ends a sleeper's reason to sleep broadcasts |
| ConditionQueue.InsideFindsWhatItNeeds | Lab24/main.c:77-132 | past the wait loop an undropped get finds a message and an undropped put finds room |
| ConditionQueue.StepRefines | Lab24/main.c:87-162 | a thread's step changes list and count as the one event it adds to the trace says |
| ConditionQueue.NextDecreases | Lab24/main.c:70-163 | every step but a spurious return before the drop lowers the measure, broadcasts included |
| ConditionQueue.NoLostWakeUp | Lab24/main.c:48-161 | in every reachable state, spurious returns allowed: an unnotified consumer implies an empty queue, an unnotified producer a full one, neither survives the drop's broadcast, and the two kinds never sleep together |
| ConditionQueue.NotifiedIff | Lab24/main.c:48-157 | a sleeper is notified exactly when the queue gets its first message, when it is no longer full, and when the drop announces itself |
| ConditionQueue.RefinesFifo | Lab24/main.c:70-163 | the trace of every run replays on the abstract queue to the concrete contents; stored is delivered followed by queued; mesCount is the length and within capacity |
| ConditionQueue.ProducersKeepOrder | Lab24/main.c:167-180 | what a producer has put and what it still has to put make up its script, in order |
| ConditionQueue.LinearisedAtCriticalSection | Lab24/main.c:87-162 | the queue changes only with an event, an event comes only from inside a critical section or the drop, and the call's result agrees with the flag there |
| ConditionQueue.RestsIffDrained | Lab24/main.c:70-197 | undropped, with a consumer, nothing can step (spurious returns aside) if and only if all producers are done, the queue is empty and all consumers sleep |
| ConditionQueue.RestDeliversAll | Lab24/main.c:70-197 | at an undropped rest every producer has put its whole script and everything stored was delivered |
| ConditionQueue.DropEndsEverything | Lab24/main.c:48-197 | runs are bounded, from the start without spurious returns and from the drop on with them; where nothing can step everybody has exited |
| HandOff.FreeForParent | Lab10/main.c:20 | if the mutex the parent wants is free, the child has already unlocked it in the iteration before |
| HandOff.FreeForChild | Lab10/main.c:20 | if the mutex the child wants is free, the parent has already unlocked it |
| HandOff.ParentsTurn | Lab10/main.c:33-35 | when the parent prints, it has printed exactly as many lines as the child |
| HandOff.ChildsTurn | Lab10/main.c:33-35 | when the child prints, the parent is one line ahead |
| HandOff.SomeoneCanStep | Lab10/main.c:18-38 | some thread can step until both have ended |
| HandOff.StrictAlternation | Lab10/main.c:10-61 | for any iteration count and interleaving the lines alternate, the parent's first, and their number follows from the two iteration counts |
| HandOff.LockstepRotation | Lab10/main.c:18-37 | completed unlocks satisfy parent <= child <= parent + 1, each mutex is owned by whom the iteration counts say, and no call in a loop has returned an error |
| HandOff.CallsSucceed | Lab10/main.c:13-32 | in every reachable state a lock is granted only while nobody owns the mutex, and an unlock in the loop finds its caller owning it |
| HandOff.RotationIsModular | Lab10/main.c:26-36 | the mutex locked and unlocked in iteration i, modulo 3; each iteration unlocks what the one before locked |
| HandOff.HandOffEnds | Lab10/main.c:18-38 | every run has at most 6 n + 9 steps; a finished run printed all lines, and the unlock after the loop succeeds for the parent iff 3 divides n, for the child iff n leaves 2 |
| HandOff.ChildEndsOwningMutexOne | Lab10/main.c:18-38 | with 30 iterations the child ends owning mutex 1 and its last unlock fails |
| Series.StrideStep | Lab7/main.c:23-26 | one round of the strided loop accounts for exactly one term of the thread's share |
| Series.StridesPartition | Lab7/main.c:23-57 | for every number of threads and terms the shares add up to the sequential sum |
| Series.ExecuteThread | Lab7/main.c:19-30 | the loop computes the sum of the terms with its offset's residue |
| Series.SumThreads | Lab7/main.c:41-59 | the program's result is four times the sequential partial sum |
| Series.TailBound | Lab7/main.c:23-26 | for n < m, 0 < S(m) - S(n) < 1/(4n+1) - 1/(4m+1) |
| Series.TermsDecrease | Lab7/main.c:24-25 | later terms are smaller |
| BarrierSeries.ThreadKeepsSum | Lab8/main.c:40-71 | each step keeps what a thread has added equal to its row, with the repeated term once it catches up |
| BarrierSeries.StepKeepsMax | Lab8/main.c:48-58 | max_iter stays the largest count offered, and is final when the first thread is done |
| BarrierSeries.StepKeepsBarrier | Lab8/main.c:59 | nobody passes the barrier before all have arrived |
| BarrierSeries.SomeoneCanStep | Lab8/main.c:40-71 | until all are done somebody can step |
| BarrierSeries.RowIsStride | Lab8/main.c:40-46 | the first k terms of a thread are its share of the first k * threads terms |
| BarrierSeries.ThreadsAgree | Lab8/main.c:47-68 | all threads end with com_iter equal to max_iter, which is the largest count at which one stopped and a multiple of the block |
| BarrierSeries.ThreadResult | Lab8/main.c:61-74 | a thread's result is its exact share plus the term it repeated minus the term it missed |
| BarrierSeries.ResultIff | Lab8/main.c:33-112 | the total is the partial sum plus all threads' excess, never below it, and equal to it if and only if all threads stopped at the same count |
| BarrierSeries.UnequalStops | Lab8/main.c:40-71 | with two or more threads and any block size a finished state is reachable in which two threads stopped at different counts |
| BarrierSeries.ExactIff | Lab8/main.c:33-112 | the sum is exact in every reachable finished state if and only if there is at most one thread |
| BarrierSeries.InterruptEndsRun | Lab8/main.c:14-71 | from the moment the flag is set every run is bounded, and it rests only with all threads done |
| StringSort.LessIsAsymmetric | Lab16/main.c:50 | strcmp orders any two distinct strings one way |
| StringSort.NotLessTransitive | Lab16/main.c:50 | strcmp order is transitive |
| StringSort.LessIs | Lab16/main.c:50 | strcmp puts a first exactly when, where the strings first differ, a has ended or has the smaller character |
| StringSort.AscendingIs | Lab16/main.c:46-59 | a list is ascending exactly when of any two neighbours the earlier one has ended or has the smaller character where they first differ |
| StringSort.AscendingIsUnique | Lab16/main.c:41-61 | two ascending arrangements of the same strings are equal |
| StringSort.BubbleStrSort | Lab16/main.c:41-61 | terminates on every list, leaves the nodes and their order alone, keeps the multiset of strings, and orders them: where two neighbours first differ, the earlier has ended or has the smaller character |
| StringSort.SinkSmallest | Lab16/main.c:47-57 | one outer round settles the smallest of the remaining strings |
| StringSort.CompareExchange | Lab16/main.c:50-55 | one comparison keeps the smaller string in front and the multiset |
| StringSort.ExchangeStrings | Lab16/main.c:51-54 | exchanges the strings of two nodes and touches nothing else |
| StringSort.StringList.constructor | Lab16/main.c:106 | the list starts with one empty string |
| StringSort.StringList.Push | Lab16/main.c:20-25 | puts one new node in front; the contents are the initial empty string and everything pushed |
| StringSort.StringList.Sort | Lab16/main.c:76-88 | the contents become the one arrangement of the initial empty string and everything pushed in which, where two neighbours first differ, the earlier has ended or has the smaller character |
| HttpText.StrChr | Lab31/main.c:93 | the first occurrence of a character, or none at all |
| HttpText.StrStr | Lab31/main.c:139 | the first occurrence of a text, or none at all |
| HttpText.GetIndexOfBody | Lab31/main.c:397-407 | the loop finds the first empty line and returns the position after it, or -1 if there is none |
| ProxyConnection.Connection.Append | Lab31/main.c:409-423 | the buffer grows by exactly the bytes received |
| ProxyConnection.Connection.constructor | Lab31/main.c:452-460 | a new connection waits for its request with an empty buffer and no entry |
| ProxyConnection.Connection.FreeBuffer | Lab31/main.c:303-307 | the content is empty afterwards |
| RequestRewrite.EditRequestToSendToServer | Lab31/main.c:170-186 | in place, the content becomes the rewritten request and the size shrinks by what was cut |
| RequestRewrite.CutHost | Lab31/main.c:171-175 | the searches and the move leave the shortened request with the old bytes behind it |
| RequestRewrite.MemMove | Lab31/main.c:174 | the tail moves down and the bytes behind it stay |
| RequestRewrite.LowerVersion | Lab31/main.c:177-185 | both searches run before either byte is written; one digit of each first match changes |
| RequestRewrite.FindsUrl | Lab31/main.c:92-109 | the extracted URL is the request line's second word |
| RequestRewrite.FindsHost | Lab31/main.c:111-122 | the extracted host is what stands between the scheme and the path |
| RequestRewrite.RemovesSchemeAndHost | Lab31/main.c:92-175 | for every request for http://host/path, exactly the scheme and the host that the two extractors find are removed: 7 + host bytes, leaving GET and the path (RFC 7230, sections 5.3.2 to 5.3.1) |
| RequestRewrite.RewritesToPath | Lab31/main.c:532-554 | for every buffer in which the extractors find a URL and a host, which is all that gets here: exactly scheme and host are cut, and the URL extracted from the result is the path |
| RequestRewrite.CutStaysInUrlIff | Lab31/main.c:170-175 | of the function by itself: the cut ends inside the URL if and only if the URL has a slash after its host, otherwise the whole URL is lost; the program fails earlier on such a URL, in getHostFromUrl (line 547 before 554) |
| RequestRewrite.OnlyVersionDigitsDiffer | Lab31/main.c:177-185 | every byte but one digit of each first version match is the shortened request's |
| RequestRewrite.TokenAfterLowering | Lab31/main.c:177-185 | a version token reads HTTP/1.0 afterwards if it was the first of its kind and is untouched if not |
| RequestRewrite.VersionLoweredIff | Lab31/main.c:170-186 | the request line ends up claiming HTTP/1.0 if and only if its path does not contain the version token |
| RequestRewrite.PathLosesItsVersion | Lab31/main.c:177-182 | a request line whose version stays HTTP/1.1 while its path is altered |
| RequestRewrite.OnlyTokenLoweredIff | Lab31/main.c:177-185 | a prefix of the memory comes out with just one token lowered if and only if it is the first of its version and no digit of the prefix belongs to the first match of the other |
| RequestRewrite.RequestRewrittenIff | Lab31/main.c:170-186 | the whole request comes out as GET, path, HTTP/1.0 and the rest unchanged if and only if the path contains neither token and no digit of the rest belongs to a match of the other one, searched together with the bytes the move left behind |
| RequestRewrite.RestLosesItsDigit | Lab31/main.c:174-185 | a request whose rest is altered although neither path nor rest contains a token: the bytes left behind it complete one |
| ResponseHeader.DecimalReads | Lab31/main.c:129-151 | a decimal number behind which no digit follows is read as itself |
| ResponseHeader.StatusRoundTrip | Lab31/main.c:124-134 | the status code written behind the version is the one read |
| ResponseHeader.LengthRoundTrip | Lab31/main.c:136-152 | the length written in the first length field is the one read, for every length; zero reads as absent |
| ResponseHeader.SignedNumberReads | Lab31/main.c:129-146 | strtol skips blanks, takes at most one sign and reads the number up to the first other character |
| ResponseHeader.NoNumberReads | Lab31/main.c:129-147 | without a digit behind blanks and sign there is no number |
| ResponseHeader.SignedLengthReads | Lab31/main.c:144-151 | a length field with any character behind its colon, blanks and a sign is read as the number if that is positive, else as absent |
| ResponseHeader.NoLengthReads | Lab31/main.c:144-149 | a length field without a number reads as absent |
| ResponseHeader.LengthFoundInBody | Lab31/main.c:139 | the search does not stop at the end of the header: a response that names no length is given one by its body |
| ResponseHeader.BodyIndexOfPrefix | Lab31/main.c:681-682 | however the stream is split, the header is found exactly when all of it has arrived |
| ResponseHeader.FieldsOfPrefix | Lab31/main.c:683-684 | from then on every prefix of the response yields the header's own status and length |
| CacheIndex.Find | Lab31/main.c:312-313 | the first entry with the URL, or none |
| CacheIndex.Cache.constructor | Lab31/main.c:28-80 | the index starts empty |
| CacheIndex.Cache.SearchCache | Lab31/main.c:309-355 | a hit, and a miss with the cache full, change no entry; any other miss makes exactly one entry, the invalid one of the URL or a new last one, an empty DOWNLOADING entry of the URL with the caller as its writer; on a hit the asking connection gives up its buffer and starts reading at 0, otherwise it changes only its index |
| CacheIndex.Cache.MakeCacheInvalid | Lab31/main.c:436-442 | one entry becomes INVALID without a writer and keeps its URL and sizes; every other entry stays as it is |
| CacheIndex.SearchKeepsDistinct | Lab31/main.c:309-355 | no search ever stores a URL twice |
| CacheIndex.AnswerMeans | Lab31/main.c:309-355 | a hit is reported iff a non-INVALID entry has the URL; no index is given iff the cache is full without it; an index given holds the URL |
| CacheIndex.MissStartsDownload | Lab31/main.c:312-354 | nothing changes on a hit or with the cache full; otherwise exactly one entry, new or invalid before, becomes an empty download by the searcher |
| CacheIndex.IndexIsStable | Lab31/main.c:309-442 | over any sequence of operations URLs stay distinct, the size stays within the maximum, and an entry keeps its place and URL |
| CacheIndex.OneDownloadPerUrl | Lab31/main.c:309-442 | after any answer with entry j, every later search for the URL is a hit on j, whatever happens in between, until j is invalidated |
| CacheIndex.DownloadStays | Lab31/main.c:309-442 | over any sequence of operations a download keeps its entry unchanged until that entry is made valid or invalid |
| CacheIndex.ValidOnlyIfCompleted | Lab31/main.c:309-442 | over any sequence of operations an entry becomes VALID only by the completion of its download |
| CacheIndex.CompletedIsHit | Lab31/main.c:747-750 | completion changes only the status, to VALID, and every later search hits the entry |
| CacheIndex.InvalidIsDownloadedAgain | Lab31/main.c:321-442 | after an entry is made invalid the next search for its URL is a miss that makes the searcher download into the same entry, whatever happened to other URLs in between |
| PollPass.FormPollFds | Lab31/main.c:257-291 | descriptors 2i and 2i+1 carry connection i's two sockets, and event by event ask for it exactly in the states listed; an inactive connection keeps what was there and the rest is untouched |
| PollPass.AskedIsDecisive | Lab31/main.c:257-828 | a connection asks for exactly those events whose report can decide whether the arm of work for its state runs |
| PollPass.MoveConnection | Lab31/main.c:357-367 | the last connection replaces the dropped one, and its old place holds no sockets, buffer or entry |
| PollPass.WakeUp | Lab31/main.c:444-450 | every active waiting connection responds from the cache again; no other state and no other field changes |
| PollPass.HandleAt | Lab31/main.c:510-830 | handling a connection changes that connection, and others at most by waking them |
| PollPass.SwapRemoveKeepsRest | Lab31/main.c:357-366 | swap-removal removes exactly the dropped connection, as a multiset |
| PollPass.Pass | Lab31/main.c:510-511 | whatever is changed, woken or dropped by handling, the connection handled at each index is the one that was there at the start, at most woken; none is handled twice, and the surviving clients are the old ones minus those dropped, as a multiset |
| PollPass.Round | Lab31/main.c:257-511 | each connection handled finds its own sockets in its pair of descriptors, and the events asked for are those of its status at the layout |
| CacheStream.CacheEntry.constructor | Lab31/main.c:345-349 | a new entry is empty |
| CacheStream.CacheEntry.StoreFirst | Lab31/main.c:698-710 | allocates header plus length and stores what the connection has collected |
| CacheStream.CacheEntry.Append | Lab31/main.c:738-742 | the stored bytes grow by exactly those received, within the allocation |
| CacheStream.CacheEntry.NextChunk | Lab31/main.c:806-814 | what a reader sends next is the stored bytes from its offset, 64 of them or all there are |
| CacheStream.PlainResponseIsCacheable | Lab31/main.c:681-716 | any body within the limit behind a plain header with its length meets the conditions assumed of a response |
| CacheStream.HeaderKeepsWriter | Lab31/main.c:674-735 | the header is recognised when complete, however it was split, and the entry gets the response's true size |
| CacheStream.ReceiveKeepsWriter | Lab31/main.c:674-745 | every receive keeps what is stored a prefix of the response |
| CacheStream.ServedKeepsReader | Lab31/main.c:444-450 | a step of the writer never leaves a reader asleep beside new data, a finished or a failed download |
| CacheStream.ReadKeepsReader | Lab31/main.c:758-827 | a reader's step keeps what it has sent equal to the entry's first bytes |
| CacheStream.NobodyStarves | Lab31/main.c:674-827 | unless the writer is lost, until every reader has got everything or was dropped the writer or a reader can go on, although a reader inside the wait holds up its whole thread |
| CacheStream.CacheAgreesWithOrigin | Lab31/main.c:674-827 | in every reachable state the entry is a prefix of the response, VALID implies all of it, and each reader has been sent exactly data[..cacheBytesWritten], all of it if complete (lengths as in RFC 7230, sections 3.3.2 and 3.3.3) |
| CacheStream.NoReaderOversleeps | Lab31/main.c:762-794 | in every reachable state a waiting reader has sent all there is and the download is going on or was lost, and no thread is inside two waits on the condition variable |
| CacheStream.WakingByThread | Lab31/main.c:444-450 | a woken reader of the writer's own thread is back in the poll loop, one of another thread is at the test of the loop around its wait |
| CacheStream.HeldUpByThread | Lab31/main.c:769-794 | inside the wait a reader holds up all others of its thread; readers of the writer's own thread hold up nobody |
| CacheStream.ReaderActs | Lab31/main.c:762-827 | a reader from the poll loop looks at the status first, one from the wait at what there is to send; what is sent is the next stored bytes, at most 64, and the reader is complete exactly at the entry's size |
| CacheStream.AnySplit | Lab31/main.c:643 | any number of the bytes left, down to one, can be received next |
| CacheStream.StoresFit | Lab31/main.c:698-742 | no store goes beyond the allocation |
| CacheStream.DownloadEnds | Lab31/main.c:640-827 | every run is bounded; where it cannot go on the download has ended or its writer was lost; if it has ended nobody waits, and after a success every reader whose client stayed has the whole response |
| CacheStream.LostForGood | Lab31/main.c:645-649 | once the writer is lost nothing wakes a waiting reader or adds to the entry |
| CacheStream.LossStrands | Lab31/main.c:645-649 | from any point of a download at which recv can fail, each reader not yet served can end in a state in which nothing can go on, its thread has a reader waiting for ever and the entry is DOWNLOADING |
| CacheStream.EndsServedIff | Lab31/main.c:640-827 | all readers are served in every state that cannot go on if and only if the writer is never dropped with the entry left as it was, or there are no readers |
| CacheDecision.ReceiveDecides | Lab31/main.c:674-735 | for every response and every split of it, what a receive does before a size is known: an incomplete header is collected; one with status 200 and a length within the limit sets the size; any other makes the entry invalid with nothing stored and nobody left waiting, frees the buffer if there was a length, and ends the connection only without one and with a status that has no body |
| CacheDecision.KeptWasAccepted | Lab31/main.c:681-753 | for every response: whatever is sized, stored, streamed or VALID was sized by bytes that form a complete header with status 200 and a length within the limit, the response's first bytes unless a header was refused before; a VALID entry has exactly that size |
| CacheDecision.HeaderDecidesKeeping | Lab31/main.c:681-735 | for every response whose header names a status and a length, that header alone decides, however the stream is split: a good one is never refused, and before a refusal only a good one is kept, with header plus length as its size |
| CacheDecision.KeepsHidden | Lab31/main.c:674-700 | behind a refused header, bytes that would be accepted by themselves are accepted |
| CacheDecision.ServesHidden | Lab31/main.c:674-753 | and if they are a whole response, they become a VALID entry |
| CacheDecision.RefusedStaysOutIff | Lab31/main.c:674-753 | a response with a refused header is never kept if and only if nothing behind the header would be accepted by itself |
| CacheThreads.NextKeepsGood | Lab31/main.c:640-827 | every step, breaking ones included, keeps a thread inside at most one wait and every reader behind its entry |
| CacheThreads.RunsEnd | Lab31/main.c:640-827 | every run of several downloads and their readers is bounded, whatever breaks |
| CacheThreads.StuckInCircle | Lab31/main.c:778-794 | where nothing can go on although something is unsettled, the waiting threads form a circle, unless a download was abandoned |
| CacheThreads.LockedForGood | Lab31/main.c:778-794 | whatever else happens, downloads breaking off and clients leaving included, a circle of waiting threads stays one |
| CacheThreads.CircleDeadlocks | Lab31/main.c:778-794 | every circle of threads can lock itself: a state is reachable in which all of them wait, nothing can go on and something is unsettled |
| CacheThreads.LossStrands | Lab31/main.c:645-649 | with a reader and a download that can be abandoned, a state is reachable in which nothing can go on and a reader still waits for bytes |
| CacheThreads.CompletesIff | Lab31/main.c:640-827 | every way of going on ends with all downloads over and all readers served or gone if and only if there are no readers, or no download is ever abandoned and there is no circle |
| CacheThreads.TwoThreadsDeadlock | Lab31/main.c:778-794 | two threads that each download one entry and read the other's can deadlock, whatever the sizes |

## Left out

What the models abstract from:

- Printing, logging, sleeping, signal delivery, command lines, sockets, DNS, and failures of thread creation. A `recv` returns any number of bytes, ends or fails, a `send` takes any part or fails, and `poll` reports any descriptor.
- `malloc` and `free`: nodes and buffers are garbage-collected. The queues' destroy functions and the release of removed nodes are not modelled.
- Floating-point rounding (sums are over `real`) and overflow of `int` counters and indices.
- Memory-model effects on variables read without a lock (`ready` in Lab10, `flag` and `max_iter` in Lab8, the entry fields in Lab31): steps are interleaved one at a time. A round of a numeric loop, and a block that only touches data its lock protects, is one step.
- NUL bytes: texts are `string`, and a library search ends where the memory ends instead of at a terminator.
- `doubleMutex` in Lab24 only surrounds a log line while `mutex` is held.
- The start of the threads: all exist from the first state, except that the child of Lab10 starts with the parent already owning mutex 2.

Members that say less than the program might suggest:

- ConditionQueue.NoLostWakeUp: for a capacity of at least one; with capacity zero every producer would wait for ever.
- Series.SumThreads: for at least one thread; the array of threads has no defined length otherwise.
- HttpText.GetIndexOfBody: for at least three bytes; below that the program's unsigned bound wraps around.
- RequestRewrite.EditRequestToSendToServer: for requests in which both searches find something; otherwise the program uses a null pointer.
- RequestRewrite.CutStaysInUrlIff: about the function alone; for a URL without a slash after its host the program has already gone wrong in `getHostFromUrl`, which `getServerSocket` calls first.
- CacheIndex.Cache.SearchCache: each call is taken as one atomic step, although the program has no lock around it.
- CacheStream.CacheAgreesWithOrigin: one download into one entry, of a cacheable response of which the origin sends exactly header and length, in pieces of any size except that the first has at least three bytes (`getIndexOfBody` reads past a shorter buffer). A spurious return of the wait, which its loop repeats, and a send of zero bytes are not steps. A reader's client is found gone only when the reader sends.
- CacheDecision.KeptWasAccepted: an origin that sends more than header and length would make the program write behind its allocation; the model goes on counting bytes. Nor does another search take over an invalid entry while its old connection still receives.
- CacheDecision.HeaderDecidesKeeping: not for a header that names no length of its own, as the program may then find one in the body (`ResponseHeader.LengthFoundInBody`).
- CacheStream.ReceiveKeepsWriter: for a first piece of at least three bytes, as above.
- CacheStream.EndsServedIff: the lost writer also stands for the ways a connection is dropped before its first received byte with its entry left DOWNLOADING (lines 548-553, 579-597 and 629-636).
- CacheThreads.CompletesIff: counts bytes instead of holding them, and has all readers attached from the start.
- PollPass.HandleAt: what the arms of the switch make of their connection is any outcome; the arms for forwarding and for reading from the cache are in `CacheStream`.
- PollPass.Pass: what handling makes of a connection is the outside world's choice, except that it never changes whose connection it is.

Parts of the repository that are not modelled:

- Lab31/main.c: downloading again into an invalid entry that still has readers, the `makeCacheInvalid(i)` calls at lines 580 and 592 that index by connection, the uses of `connections[i]` after it was dropped (lines 720-724 and 785-794), `cutBody`, a failing `malloc`, the remaining arms of `work`, and the socket queue (Lab31/services), which would add a plain sequential FIFO.
- Lab9/din_phil.c: the classic deadlocking version.
- Lab21: one condition variable for several fork mutexes; its progress does not hold.
- The second versions of the two queues (the directory Lab23-24): they free nodes or signal in ways under which the progress claims fail.
- Lab17 (the list of Lab16 with a lock a node), Lab25 (network relay), Lab6 (file copying), Lab1 to Lab5, Lab12, Lab13 and Lab22: they would add only easy members or I/O.

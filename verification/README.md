# Lithops: verified models of its protocols and transformations

Lithops runs Python functions on serverless and standalone backends. This project models the
parts of it in which something can go subtly wrong, and proves what each of them does, for all
inputs, all runs or all interleavings:

- **Synchronisation over Redis lists**: semaphores and locks (`SemLocks`), the condition variable
  (`Conditions`), and what is built on it, the event (`Events`) and the joinable queue
  (`JoinableQueues`). Every Redis command is one step of a transition system with any number of
  processes.
- **Splitting and reading objects**: how an object is cut into byte ranges (`Partitioner`), how a
  reader trims a range to whole lines (`StreamReader`), and when the two compose to the identity
  (`SplitRead`).
- **Scheduling**: the token-bucket scheduler of the FaaS invoker as a concurrent system
  (`Scheduler`), when it is stuck with a chunk in its queue (`Stranding`) and for which jobs that
  can or must happen (`StrandingJobs`), the monitor's incremental token generation
  (`TokenMonitor`), and which chunks give their token back (`Credits`).
- **The standalone work queue**: its order and its cancellation one caller at a time (`WorkQueue`),
  its tasks under every interleaving of submissions, workers and cancellations (`TaskRaces`), when
  a cancellation can lose tasks of other jobs (`CancelRaces`), the job status that racing workers
  write (`JobStatus`), and what submissions, workers and cancellations do undisturbed
  (`SerialRuns`).
- **Codecs and searches**: payload packing and ranged download (`Payload`, `CallIds`, `Chunks`), AWS
  Batch sizing (`AwsBatch`), storage keys (`StorageKeys`, `Strings`), glob matching (`StarPatterns`,
  `Glob`), module dependencies (`Dependencies`) and the retry loop (`Retries`).

`dafny verify dfyconfig.toml` checks everything.

## How the models are made

Code that updates an object or runs a loop is a class or a method with loops, proved against a
function or a property (`AggData`, `SplitLoop`, `PartitionReader.Read`, `GenerateTokens`, `CancelJob`,
`Invoke`, `Match`, `Add`, `Wait`). Code that several processes run at once is a transition system:
a state, a predicate `Next` with one case per Redis command or thread step, and `IsRun` for a run
from an initial state; theorems quantify over runs and positions in them. The Redis server, the
storage service, the backend and the executor answer as their interfaces say; whatever they may
decide (which process runs next, whether a request is refused, whether a call fails) is left open,
so the theorems hold for every decision.

A theorem about all runs says what can never happen. What a call does is stated besides: the lemmas
whose names end in `Alone` say for every state that a call can make all its steps one after the
other, and which state it comes to then; `NotifyWakesFirst`, `FlagIsLastWrite` and `StatusIs` say
it for every run, whoever interferes.

Redis key names, process ids and responses are numbers or strings; serialized values are opaque
bytes. Integers are unbounded, as in Python. `SEM_VALUE_MAX` and `CHUNK_THRESHOLD` keep their
values, and half-to-even `round` is written out over exact reals.

## Where the code does not do what one would expect

Each of these is a lemma; where it depends on the input, the exact condition is stated on what a
caller knows beforehand.

- *Splitting.* When the chunk size divides size - 1, the loop stops one byte short. Without a newline
  character the last byte is then in no partition (`SplitRead.PlainSplitReadIdentity`); with one, the
  last reader goes on to the end of its line, and a byte is lost only if the object ends with an
  empty line. An object whose last line has no newline loses its last byte when it is cut
  (`SplitRead.SplitReadIdentity`). With chunks of one byte the first line is read again
  (`SplitRead.OneByteChunksRepeat`), which goes unnoticed only if the object begins with two empty
  lines, or if its first newline is one byte beyond what the first reader is given. Where an object
  comes back from chunks of at least two bytes, every line is read by exactly one partition
  (`SplitRead.LineInOnePartition`).
- *Semaphores* created above their own maximum lose tokens (`SemLocks.ConservesIff`), releases by
  processes that hold nothing let in any number of holders (`SemLocks.HoldersUnbounded`), and
  `Lock.acquire(False)` sets `owned` although it acquired nothing (`SemLocks.Lock.TryAcquire`).
- *Scheduler.* The monitor credits full chunks only, so chunks that are not full keep their tokens
  for good and a later chunk can stay in the queue for ever. For a list of jobs whose last one
  takes m workers (as many as it has chunks, at most `max_workers`), that can happen exactly if at
  least `ASYNC_INVOKERS` + m of the jobs have a chunk that is not full and there are more chunks
  than that in all (`StrandingJobs.CanStrandIff`); and it always happens exactly if more than
  `ASYNC_INVOKERS` + `max_workers` of them have one (`StrandingJobs.MustStrandIff`). A call whose
  init entry is seen only after its status entry is never counted (`TokenMonitor.CountedIffEntry`,
  `TokenMonitor.LateInitNeverCredited`), and a chunk's token comes back exactly if the chunk is full
  and no call of it is late (`Credits.ChunkCreditedIff`).
- *Standalone cancellation* reads the length of the queue and pops in two commands. If a worker takes
  the last task in between, the thread dies of an exception and the tasks of other jobs that it
  had taken off the queue are lost. That can happen exactly if a canceller of a submitted job and
  another process that pops are given at least two tasks, one of them of a job nobody cancels
  (`CancelRaces.LosesOthersIff`). A job that has lost a task never becomes DONE
  (`JobStatus.LostNeverDone`); whether a given job can lose one is decided by `JobStatus.LostIff`, and
  otherwise it becomes DONE once everything has ended, unless it has no calls at all
  (`JobStatus.DoneUnlessLost`, `JobStatus.DoneInTheEnd`).
- *Storage keys* are listed by a prefix without a separator, so executor `s-1` also lists what `s-10`
  wrote (`StorageKeys.TenthListedByFirst`); the status is an executor's own exactly if its id starts
  no other executor's job key (`StorageKeys.OwnStatusIff`).
- *Globs.* Two stars at the end of a pattern do not match nothing (`StarPatterns.TwoStarsRefuseEmpty`),
  and the matcher is exact for exactly the patterns that do not end so or match nothing at all
  (`StarPatterns.ExactIff`). A backslash before two stars escapes the validity check, and such a
  pattern can lose its last component or end in two stars (`Glob.EscapedStarCollapsed`,
  `Glob.EscapedBackslashStars`, `Glob.MatchExactIff`).
- *Dependencies.* Once a C extension is found in a package, its remaining sub-packages are not
  searched, so the order of the directory decides what is reported: everything exactly if each
  import hidden behind an extension is also shown elsewhere (`Dependencies.ReportsAllIff`,
  `Dependencies.ExtensionHidesImports`).
- *Retries.* Waiting for an empty list waits for every future there is and then fails to look the
  first one up (`Retries.RetryingFunctionExecutor.Wait`).
- *Payload.* A chunk whose arguments are all empty asks for an unusable byte range
  (`Payload.RoundTrip`).

## Model

| member | source | states |
|---|---|---|
| SemLocks.SemLock.Release | lithops/multiprocessing/synchronize.py:38-45 | the release script adds a token exactly below the maximum |
| SemLocks.SemLock.TryAcquire | lithops/multiprocessing/synchronize.py:85-87 | a non-blocking acquire succeeds exactly if there is a token, and takes one |
| SemLocks.SemLock.AcquireServed | lithops/multiprocessing/synchronize.py:80-84 | a blocking acquire, when served, takes one token |
| SemLocks.Lock.TryAcquire | lithops/multiprocessing/synchronize.py:134-137 | the lock is marked owned even when nothing was acquired |
| SemLocks.ValueBounded | lithops/multiprocessing/synchronize.py:38-45 | whoever releases, in any interleaving, the value never passes the maximum it may start from |
| SemLocks.TokensConserved | lithops/multiprocessing/synchronize.py:80-93 | if only successful acquirers release, tokens plus holders stay at the initial value in every reachable state |
| SemLocks.ConservesIff | lithops/multiprocessing/synchronize.py:47-53 | that conservation holds on all runs if and only if the semaphore is not created above its maximum |
| SemLocks.BoundedHolders | lithops/multiprocessing/synchronize.py:116-118 | a BoundedSemaphore(n) has at most n holders |
| SemLocks.HoldersUnbounded | lithops/multiprocessing/synchronize.py:89-93 | anybody may release: then every number of holders is reached in some run, for every semaphore that admits one |
| SemLocks.TryAcquireEnds | lithops/multiprocessing/synchronize.py:85-87 | in every state a non-blocking acquire has the outcome that the method returns |
| SemLocks.MutualExclusion | lithops/multiprocessing/synchronize.py:125-141 | a Lock has at most one holder, who holds it once, and is free exactly when nobody does |
| Conditions.InvStep | lithops/multiprocessing/synchronize.py:184-228 | every single Redis command of wait, notify or notify_all keeps lock exclusion, fresh handles and one copy of every awaited handle, so none is lost or told twice |
| Conditions.NoLostWakeUp | lithops/multiprocessing/synchronize.py:184-228 | in every interleaving a process between enqueuing and waking has its handle in exactly one of the notify list, the running notifier's work and its token |
| Conditions.NotifyAllWakes | lithops/multiprocessing/synchronize.py:212-228 | although lrange, delete and pushes are separate, every handle listed when notify_all starts has its token when it ends, unless its process woke already |
| Conditions.NotifyWakesFirst | lithops/multiprocessing/synchronize.py:201-210 | in every run a notify with somebody listed takes exactly the first handle off the list, and when it ends that handle has its one token if it is still awaited; with nobody listed it changes nothing |
| Conditions.WaitBegins | lithops/multiprocessing/synchronize.py:184-196 | undisturbed, a wait comes to its blpop with a fresh handle listed last and the lock free |
| Conditions.WaitEnds | lithops/multiprocessing/synchronize.py:197-199 | undisturbed, a waiter whose token is there uses it up and owns the lock again |
| Conditions.NotifyAlone | lithops/multiprocessing/synchronize.py:201-210 | undisturbed, notify gives a token to the handle listed first and to no other |
| Conditions.NotifyAllAlone | lithops/multiprocessing/synchronize.py:212-228 | undisturbed, notify_all gives every listed handle one token and empties the list |
| Conditions.LockExclusive | lithops/multiprocessing/synchronize.py:172-176 | no two processes are inside the condition's lock |
| Conditions.BlockedOnlyWhileListed | lithops/multiprocessing/synchronize.py:194-199 | a blocked process can wake exactly when its handle is neither listed nor in a notifier's work |
| Conditions.GoneStaysGone | lithops/multiprocessing/synchronize.py:187-189 | a handle taken out of the notify list never comes back |
| Events.EventInvStep | lithops/multiprocessing/synchronize.py:262-280 | each step of set, clear or wait keeps: the flag is up and somebody is listed only while a setter is about to wake all |
| Events.NobodyStranded | lithops/multiprocessing/synchronize.py:266-280 | whenever the lock is free and the flag is up, the notify list is empty and every blocked waiter has its token |
| Events.WaitReturnsOnlyWhenSet | lithops/multiprocessing/synchronize.py:277-280 | a whole call of wait returns only after it saw the flag up as the one owner of the lock, and if it slept, another process has set the flag during the call |
| Events.FlagIsLastWrite | lithops/multiprocessing/synchronize.py:266-275 | at every moment of every run the flag is up if and only if there was a set and no clear since |
| Events.SetAlone | lithops/multiprocessing/synchronize.py:266-270 | undisturbed, set leaves the flag up, the list empty, a token for everybody who was listed, and the lock free |
| Events.ClearAlone | lithops/multiprocessing/synchronize.py:272-275 | undisturbed, clear lowers the flag and wakes nobody |
| Events.WaitAlone | lithops/multiprocessing/synchronize.py:277-280 | undisturbed, wait returns at once if the flag is up, and otherwise sleeps with a fresh handle listed last and the lock free |
| Events.WaitGoesOn | lithops/multiprocessing/synchronize.py:277-280 | undisturbed, a waiter with its token returns if the flag is up |
| JoinableQueues.QueueInvStep | lithops/multiprocessing/queues.py:199-214 | each step of put, task_done or join keeps the wake-up invariant and the bound of the counter |
| JoinableQueues.NobodyStranded | lithops/multiprocessing/queues.py:204-214 | whenever the lock is free and nothing is unfinished, no joiner is listed and every blocked one has its token |
| JoinableQueues.UnfinishedExact | lithops/multiprocessing/queues.py:199-207 | in every run the counter is the puts made less the successful task_dones, both counted from the run, if and only if no put met the semaphore's maximum, and it is short by exactly those that did |
| JoinableQueues.JoinSawZero | lithops/multiprocessing/queues.py:211-214 | join, which waits once without testing again, returns only if nothing was unfinished at some moment during the call |
| JoinableQueues.PutAlone | lithops/multiprocessing/queues.py:199-202 | undisturbed, put counts one more unfinished task, up to the maximum |
| JoinableQueues.DoneAlone | lithops/multiprocessing/queues.py:204-209 | undisturbed, task_done counts one task less and wakes nobody unless it was the last; with none it is refused |
| JoinableQueues.LastDoneAlone | lithops/multiprocessing/queues.py:208-209 | undisturbed, the last task_done gives a token to every joiner listed and empties the list |
| JoinableQueues.JoinAlone | lithops/multiprocessing/queues.py:211-214 | undisturbed, join returns at once with nothing unfinished, and otherwise sleeps with a fresh handle listed last |
| JoinableQueues.JoinGoesOn | lithops/multiprocessing/queues.py:213-214 | undisturbed, a joiner with its token returns, whatever is unfinished by then |
| Partitioner.ChunkSizeIsCeil | lithops/job/partitioner.py:331-338 | with a chunk number n, half-to-even rounding gives chunks of exactly ceil(size / n) bytes |
| Partitioner.Split | lithops/job/partitioner.py:331-380 | the options mean what they say: with a chunk number n the partitions are chunks of ceil(size / n) bytes, otherwise of the chunk size if it is set, every one but the last as long as that, ceil((size - 1) / chunk) in all; with neither, or a chunk that holds the object, an object of at least two bytes is one partition without a range; each learns the total; a division by zero exactly for an empty object that is to be cut by number or not at all |
| Partitioner.SplitLoop | lithops/job/partitioner.py:340-374 | the loop, which also overwrites its chunk size, produces the specified cuts |
| Partitioner.LoopEnd | lithops/job/partitioner.py:348-374 | where the partitions end, for every chunk size: one byte short exactly when the chunk size divides what is left before the last byte |
| Partitioner.LoopCount | lithops/job/partitioner.py:348-374 | how many partitions the loop makes, for every chunk size |
| Partitioner.Geometry | lithops/job/partitioner.py:331-374 | for every object and chunk size, cut or not: the count against ceil(size / chunk), coverage of the whole object if and only if the chunk size does not divide size - 1, and at most n partitions for a chunk number n |
| StreamReader.FindFromIsFirst | lithops/utils.py:696-702 | what `find` returns is the first position of the byte, or -1 if there is none |
| StreamReader.PartitionReader.Read | lithops/utils.py:678-706 | the whole read is the range without its plus byte, trimmed at both ends; a second read is empty |
| StreamReader.LoadAndRead | lithops/worker/jobrunner.py:163-169 | how a partition becomes a reader and what a function that reads it sees |
| SplitRead.SplitReadIdentity | lithops/utils.py:678-706 | for every object and every chunk size, reading all partitions gives the object back if and only if it ends with a newline, every boundary has one within the threshold, and it does not end with an empty line where the chunk size divides size - 1; with chunks of one byte the first boundary counts for nothing and the first line must be one of two kinds; an uncut object only must not be a single byte |
| SplitRead.WholeLinesComeBack | lithops/job/partitioner.py:348-374 | the documented case: whole lines, none reaching past the threshold, come back |
| SplitRead.LineInOnePartition | lithops/utils.py:691-706 | where an object cut into chunks of at least two bytes comes back, each partition reads one span of it, and every line lies within the span of one partition and outside those of all others |
| SplitRead.PlainSplitReadIdentity | lithops/job/partitioner.py:353-355 | without a newline character exactly the last byte is missing, exactly if the chunk size divides size - 1 |
| SplitRead.OneByteChunksRepeat | lithops/job/partitioner.py:356-358 | for every object of at least three bytes with a newline in the first window, the second of the one-byte chunks reads the first line again |
| SplitRead.Seam | lithops/utils.py:691-704 | where one reader stops its neighbour starts |
| Scheduler.DirectThenQueued | lithops/invokers.py:444-481 | the chunks submitted at once followed by the queued ones are all chunks of the job in order, and the first fit into the free workers |
| Scheduler.InvStep | lithops/invokers.py:309-488 | every step of the user thread, an invoker thread, the backend or the monitor keeps the bounds, the tokens and the chunks, also when a chunk is finished before the backend's answer is there |
| Scheduler.Conservation | lithops/invokers.py:309-337 | in every reachable state tokens queued, held and spent on chunks neither refused nor credited are ASYNC_INVOKERS plus running_workers, which is between 0 and max_workers; so the chunks that run are bounded |
| Scheduler.ChunkConservation | lithops/invokers.py:381-387 | every chunk is in as many places as it was issued, a quota refusal included |
| Scheduler.CallInOneChunk | lithops/utils.py:73-76 | every call is in exactly one chunk of its job, which occurs once |
| Scheduler.CallConservation | lithops/invokers.py:444-488 | in every reachable state every call of every job is in exactly one chunk, in exactly one place |
| Scheduler.CreditBeforeAnswer | lithops/monitor.py:416-427 | a credit before the backend has answered comes to the same state as the answer and then the credit |
| Stranding.StuckIff | lithops/invokers.py:309-327 | in a reachable state with queued chunks nothing but another submission can ever happen exactly if the backend has answered, only partial chunks are uncredited, and they hold every token there is |
| Stranding.AlwaysStranded | lithops/monitor.py:416-425 | with more than max_workers + ASYNC_INVOKERS such jobs, every run that has come to rest has left a chunk in the queue |
| Stranding.ComesToRest | lithops/invokers.py:309-337 | from every reachable state in which the user thread is ready the system can come to rest |
| StrandingJobs.StrandsOnlyThen | lithops/invokers.py:444-488 | in every run, a chunk stuck in the queue means that at least ASYNC_INVOKERS + m jobs have a partial chunk and that there are more chunks than that, m being the workers the last job takes |
| StrandingJobs.CanStrandIff | lithops/invokers.py:444-488 | for every list of jobs and every number of workers: some run that invokes them ends with a chunk left in the queue if and only if that holds |
| StrandingJobs.MustStrandIff | lithops/monitor.py:416-425 | and all runs that come to rest do if and only if more than max_workers + ASYNC_INVOKERS jobs have a partial chunk |
| StrandingJobs.CopiesStrandIff | lithops/monitor.py:416-425 | for every number of workers and every shape of job, repeating it can strand a chunk if and only if the chunk size does not divide the number of calls |
| TokenMonitor.StorageMonitor.GenerateTokens | lithops/monitor.py:393-430 | after a poll the incremental state is what all polls so far add up to, whatever the init entries are and in whatever order they are read, and one token was put per newly finished worker |
| TokenMonitor.StorageMonitor.RecordRunning | lithops/monitor.py:403-407 | the new init entries are added to the worker index; of several new entries of a call one stays on record, and calls without new entries keep theirs |
| TokenMonitor.StorageMonitor.RecordDone | lithops/monitor.py:409-414 | each new done call that is on record is listed once, with the worker on record, and what stood first in a list still does |
| TokenMonitor.StorageMonitor.CreditWorkers | lithops/monitor.py:416-427 | a worker is credited once, when its list is as long as the chunk size of the job of its first call |
| TokenMonitor.StorageMonitor.Run | lithops/monitor.py:453-475 | over any sequence of snapshots each credited worker is credited once, with one token |
| TokenMonitor.CountedIff | lithops/monitor.py:400-414 | the increments count for a worker exactly the calls it is on record for when they are first seen done |
| TokenMonitor.CountedForOne | lithops/monitor.py:403-414 | no call is counted for two workers, whoever wrote init entries for it |
| TokenMonitor.CountedIffEntry | lithops/monitor.py:409-414 | a done call is counted for some worker if and only if an init entry of it is there when its status is first seen |
| TokenMonitor.CountedIsBatch | lithops/monitor.py:400-414 | with one worker per call and init entries in time the increments equal a batch count over everything seen |
| TokenMonitor.CreditedIffChunkDone | lithops/monitor.py:416-427 | a worker given calls of one job, no more than its chunk size, is credited exactly if that many of them are done |
| TokenMonitor.CreditedIffFullAt | lithops/monitor.py:416-427 | a worker given calls of one job is credited if and only if at some poll the job is tracked and the calls counted number its chunk size: a job that is taken out of the monitor before gives no token |
| TokenMonitor.CreditedIffAllInTime | lithops/monitor.py:409-427 | a worker given the calls of one chunk is credited if and only if the chunk is full and the worker is on record for each call when its status is first seen |
| Credits.ChunkCreditedIff | lithops/monitor.py:416-427 | the same for a chunk of the scheduler: its token comes back if and only if it is full and none of its calls is late |
| TokenMonitor.LastSnapshot | lithops/monitor.py:400-401 | if storage only grows, the batch count needs the last snapshot only |
| TokenMonitor.LateInitNeverCredited | lithops/monitor.py:409-414 | one late init entry, and the worker is never credited |
| WorkQueue.Queue.HandleJob | lithops/standalone/master.py:532-537 | a job's tasks are queued behind what is there, in order of its calls |
| WorkQueue.Queue.CancelJob | lithops/standalone/master.py:445-453 | draining and refilling takes out exactly the job's tasks and keeps the order of the rest |
| WorkQueue.Queue.Consume | lithops/standalone/worker.py:153-157 | a consumer runs the queue from its tail until it is empty |
| WorkQueue.WithoutCount | lithops/standalone/master.py:445-453 | what is left of the queue holds every task of another job as often as before and none of the job |
| WorkQueue.CancelThenRun | lithops/standalone/master.py:443-453 | after a cancellation the other jobs' tasks run, each in order of submission |
| TaskRaces.TaskConservation | lithops/standalone/worker.py:148-197 | under every interleaving tasks of any kind are neither lost nor duplicated between queue, processes, done lists and what cancellation threw away |
| TaskRaces.OthersKept | lithops/standalone/master.py:443-453 | no task of a job nobody cancels is thrown away |
| TaskRaces.LostExactlyInCrashes | lithops/standalone/master.py:446-448 | in the end such a task is missing exactly as often as a canceller died with it |
| TaskRaces.LeavesNothing | lithops/standalone/worker.py:154-157 | in every run, when a worker leaves while nobody still has tasks to put into the queue, the queue is empty and stays so |
| CancelRaces.LosesOthersIff | lithops/standalone/master.py:446-453 | for every set of submissions, workers and cancellations: a run that loses a task of a job nobody cancels exists if and only if a canceller of a submitted job and another process that pops meet, there are at least two tasks, and one is of such a job |
| CancelRaces.LosesOnlyThen | lithops/standalone/master.py:446-453 | every run in which such a task is lost starts from such a set |
| CancelRaces.CancelCanLoseOthers | lithops/standalone/master.py:446-448 | from every such set there is a run in which the canceller dies with the task |
| JobStatus.InvStep | lithops/standalone/worker.py:131-143 | every step keeps: writers of DONE plus DONE itself are one exactly when all tasks are recorded |
| JobStatus.DoneMeansRecorded | lithops/standalone/worker.py:139-143 | in an uncancelled job DONE means that all tasks are recorded and none is queued or running |
| JobStatus.DoneSticks | lithops/standalone/worker.py:131-134 | the status becomes DONE by a worker's write only, and no other write, such as the late RUNNING, undoes it |
| JobStatus.RunningOnceBegun | lithops/standalone/worker.py:131-134 | in every run of a job submitted once and not cancelled: while a worker runs a task of it, or later, the job is RUNNING or DONE |
| JobStatus.StatusIs | lithops/standalone/worker.py:131-143 | the status at every moment of such a run: there since the submission, SUBMITTED as long as no worker has written RUNNING, and RUNNING or DONE from then on |
| JobStatus.OneWorkerWritesDone | lithops/standalone/worker.py:139-143 | DONE is written once, by one worker |
| JobStatus.DoneInTheEnd | lithops/standalone/master.py:520-537 | when everything has ended the job is DONE if and only if it had calls and no canceller of another job died with one of its tasks |
| JobStatus.LostIff | lithops/standalone/master.py:446-453 | for every set of processes: a run in which a canceller dies with a task of this job exists if and only if the job has calls, a canceller of a submitted job and another process that pops are there, and there are at least two tasks |
| JobStatus.LostNeverDone | lithops/standalone/worker.py:139-143 | once that has happened the job never becomes DONE |
| JobStatus.DoneUnlessLost | lithops/standalone/master.py:520-537 | a job that has calls and that cannot lose a task, by what is known at the start, is DONE in every run in which everything has ended |
| SerialRuns.SubmitAlone | lithops/standalone/master.py:513-537 | undisturbed, a submission puts the tasks behind all others, in order, with the status SUBMITTED and the total |
| SerialRuns.WorkAlone | lithops/standalone/worker.py:153-200 | undisturbed, a worker records all tasks of the queue, longest queued first, and leaves |
| SerialRuns.JobAlone | lithops/standalone/worker.py:153-200 | one job and one worker: the job is reached DONE, its tasks recorded once each, in order of its calls |
| SerialRuns.CancelAlone | lithops/standalone/master.py:443-467 | undisturbed, a cancellation takes exactly the job's tasks out of the queue, keeps the order of the rest, and marks the job CANCELED unless it is DONE |
| SerialRuns.CancelStopsWorker | lithops/standalone/master.py:455-463 | and a worker that runs a task of the job meanwhile may then drop it without recording it |
| Payload.AggData | lithops/utils.py:79-89 | the joined object and the inclusive byte range of every item |
| Payload.SelectedRanges | lithops/invokers.py:366-371 | looking up formatted call ids selects the ranges of a run of calls |
| Payload.GetFunctionData | lithops/worker/utils.py:110-116 | the download is cut by the summed range lengths |
| Payload.RangedGetIs | lithops/worker/utils.py:99-108 | a range request is served exactly if it asks for a byte that is there, and then with all such bytes in order |
| Payload.RoundTrip | lithops/worker/utils.py:99-116 | for any arguments and any run of calls the worker gets back exactly those arguments, in order, if and only if they are not all empty |
| CallIds.ParseFormat | lithops/invokers.py:366-369 | a formatted call id reads back as its number, also beyond five digits |
| Chunks.ChunksFlatten | lithops/utils.py:73-76 | the chunks joined are the list |
| Chunks.ChunkCount | lithops/utils.py:73-76 | there are ceil(length / n) chunks |
| Chunks.ChunkElement | lithops/utils.py:73-76 | where element w * n + k of the list is among the chunks |
| Chunks.CeilDivIsLeast | lithops/serverless/backends/aws_batch/aws_batch.py:540-543 | the quotient-plus-remainder formula is the least number of chunks that is enough |
| AwsBatch.JobPayload.Invoke | lithops/serverless/backends/aws_batch/aws_batch.py:533-590 | the array size is the number of chunks, at most max_workers, and the job is an array exactly if there is more than one; the chunk size changes only if it must, and then to the least that fits |
| AwsBatch.JobPayload.SelectChunk | lithops/serverless/backends/aws_batch/entry_point.py:61-67 | an array index takes its own chunk of call ids, each with its own byte range |
| AwsBatch.FewestCalls | lithops/serverless/backends/aws_batch/aws_batch.py:541-543 | ceil(total / max) is the least chunk size that needs at most max workers |
| AwsBatch.EveryCallOnce | lithops/serverless/backends/aws_batch/entry_point.py:61-64 | every call id is run by exactly one array index |
| StorageKeys.ReadsBack | lithops/storage/storage.py:421-429 | a key reads back as the call and activation it was written for, and is taken for nothing else |
| StorageKeys.StatusExact | lithops/storage/storage.py:412-431 | get_job_status returns exactly the calls and activations whose entries are listed |
| StorageKeys.IndexErrorIff | lithops/storage/storage.py:421-429 | reading fails if and only if some key with a suffix text in it has too few separators |
| StorageKeys.KeysDistinct | lithops/storage/utils.py:141-164 | entries of different calls or activations never share a key |
| StorageKeys.ListedIff | lithops/storage/storage.py:418-419 | an entry is listed if and only if its job key starts with the executor id |
| StorageKeys.OwnEntriesListed | lithops/storage/storage.py:418-419 | an executor lists all its own entries |
| StorageKeys.OwnStatusIff | lithops/storage/storage.py:412-431 | get_job_status returns exactly the executor's own calls and activations if and only if its id starts no other executor's job key |
| StorageKeys.TenthListedByFirst | lithops/storage/storage.py:418-419 | executor s-1 lists the entries of s-10 |
| StarPatterns.MatchesIff | lithops/libs/globber/globber.py:42-55 | for all patterns and texts the recursion accepts exactly what can be divided among the tokens with something left for the last of two final stars |
| StarPatterns.ExactIff | lithops/libs/globber/globber.py:42-55 | the matcher agrees with the meaning on all texts if and only if the pattern does not end in two stars or has a token that fits nothing |
| StarPatterns.ExactUnlessTwoStars | lithops/libs/globber/globber.py:42-55 | in particular it is exact for patterns that do not end in two stars |
| StarPatterns.TwoStarsRefuseEmpty | lithops/libs/globber/globber.py:28-29 | two stars do not match nothing |
| StarPatterns.CollapsedKeeps | lithops/libs/globber/globber.py:81-82 | one star for two adjacent ones keeps the meaning |
| Glob.MatchComponentTokens | lithops/libs/globber/globber.py:23-39 | the character recursion, escapes included, is the token recursion |
| Glob.NameExactIff | lithops/libs/globber/globber.py:23-39 | a name pattern is matched exactly on all names if and only if it does not end in two stars |
| Glob.MatchComponentsTokens | lithops/libs/globber/globber.py:42-55 | so is the recursion over components |
| Glob.PathExactIff | lithops/libs/globber/globber.py:42-55 | a list of components is matched exactly on all paths if and only if neither it nor one of its names ends in two stars, or it means nothing at all |
| Glob.ReplaceKeepsMeaning | lithops/libs/globber/globber.py:81-82 | one textual replacement keeps the meaning where two stars meet a separator and two stars only as components |
| Glob.CollapsingKeepsMeaning | lithops/libs/globber/globber.py:81-82 | the replacement loop ends with no two adjacent double-star components and the same meaning |
| Strings.RstripIs | lithops/libs/globber/globber.py:79-80 | trailing separators are stripped, all of them and nothing else |
| Strings.RemoveNext | lithops/storage/storage.py:423-425 | replacing by nothing takes out every occurrence and keeps what is between them |
| Glob.Match | lithops/libs/globber/globber.py:58-85 | the loop over the pattern computes the specified result |
| Glob.InvalidIff | lithops/libs/globber/globber.py:76-78 | the three regular expressions together reject a pattern if and only if it has two stars that follow no backslash and are not alone between separators |
| Glob.MatchExact | lithops/libs/globber/globber.py:58-85 | for every pattern without an escaped star and a star before a double-star component and without a name pattern that ends in two stars, and for every file name: an error exactly if two unescaped stars are not alone between separators, otherwise a match if and only if the documented meaning says so |
| Glob.MatchExactIff | lithops/libs/globber/globber.py:58-85 | for every valid pattern without such an escaped pair: the result is the documented meaning for all file names if and only if no name pattern ends in two stars, or one ends in a lone backslash |
| Glob.EscapedStarCollapsed | lithops/libs/globber/globber.py:81-82 | an escaped star before a double star is eaten by the replacement |
| Glob.EscapedBackslashStars | lithops/libs/globber/globber.py:58-85 | two stars after an escaped backslash pass the check, and a file name that the pattern means is not matched |
| Dependencies.ModuleDependencyAnalyzer.Add | lithops/libs/multyvac/module_dependency.py:61-71 | for any finite import graph and any pop order the worklist ends, and the inspected modules are those inspected before and those reachable, through modules that are not ignored, from what comes before the first dot of the name; names and paths are those of the new ones that can be sent |
| Dependencies.RootIsFirst | lithops/libs/multyvac/module_dependency.py:67 | the root of a dotted name is what comes before its first dot |
| Dependencies.ModuleDependencyAnalyzer.InspectNext | lithops/libs/multyvac/module_dependency.py:70-71 | one round keeps: what is found is reachable and nothing reported is left out |
| Dependencies.ModuleDependencyAnalyzer.Inspect | lithops/libs/multyvac/module_dependency.py:101-169 | what one module adds to the sets |
| Dependencies.ModuleDependencyAnalyzer.DeepInspectPath | lithops/libs/multyvac/module_dependency.py:179-265 | the package search returns and queues what the specified scan reports |
| Dependencies.ModuleDependencyAnalyzer.Queue | lithops/libs/multyvac/module_dependency.py:144-164 | the imports queued are those neither inspected, ignored nor relative |
| Dependencies.EligibleIff | lithops/libs/multyvac/module_dependency.py:240-265 | a package is sent if and only if there is no C extension anywhere in it |
| Dependencies.ReportsAllIff | lithops/libs/multyvac/module_dependency.py:179-265 | for every package, in terms of its entries: it reports the imports to which no sub-package after an extension leads, and so all imports if and only if each hidden one is also shown elsewhere |
| Dependencies.EligibleReportsAll | lithops/libs/multyvac/module_dependency.py:179-265 | a package that is sent reports all its imports |
| Dependencies.ExtensionHidesImports | lithops/libs/multyvac/module_dependency.py:240-243 | sub-packages after a C extension are not searched |
| Dependencies.SearchEnds | lithops/libs/multyvac/module_dependency.py:70-71 | an empty worklist means that the inspected set is closed and exactly the reachable one |
| Retries.RetryingFunctionExecutor.Wait | lithops/retries.py:276-339 | the wait ends; all futures are done, in order and once; each was submitted again only after an error, with its own input and within its retries; an empty list is an error exactly if anything was ever submitted |
| Retries.RetryingFunctionExecutor.HandleAll | lithops/retries.py:317-330 | one round: either all futures are finished or one was submitted again |
| Retries.RetryingFunctionExecutor.Handle | lithops/retries.py:319-330 | one response: a failed future is submitted again exactly while it may be |
| Retries.EndsInError | lithops/retries.py:70-76 | a future ends in an error if and only if all its responses do, and then it was cancelled or submitted again exactly `retries` times |

## Left out

- Invoker `stop` and restart, the remote invoker, and several user threads in one executor.
- Timeouts of `Condition.wait`, which leave a stale handle in the notify list; key expiry; uuid collisions.
- `RLock`, which has no recursion count, and `Barrier`, whose logic is in Python's `threading`.
- The items of `JoinableQueue` themselves; the pipe under `Queue` is not part of this model.
- SemLocks.SemLock.AcquireServed: models the moment `blpop` is served, because waiting for it has no effect of its own.
- `readline` and partial `read(n)` of the partition reader, which do not agree with `read()`: `readline` does not count the discarded first row.
- Newline strings of more than one byte, which the reader cannot find as the byte before a boundary.
- The partitioners for URLs and local paths, prefix keys and object listing; one object is modelled, of which the three variants share the loop. The byte range that is reported back after reading is left out.
- Floating-point error in `round`: exact reals.
- The futures' own states in the monitor (`_tag_future_as_running`, `_tag_future_as_ready`), the RabbitMQ monitor, and `stop` during a poll.
- TokenMonitor.CreditedIffChunkDone: requires that a worker is given no more calls than a chunk, because the source compares for equality and can miss a count that jumps past it.
- Backend calls that raise instead of answering: the invoker thread then neither requeues the chunk nor returns the token.
- The worker's `/stop`, which kills every process whose key starts with the job key, so that stopping `job-1` also kills a task of `job-10`, which is then recorded as done: in `TaskRaces` a stop concerns its own job only.
- Races on the status field between a cancellation and the workers of the same job: the theorems about DONE are for jobs nobody cancels.
- Worker processes that die, budgets and worker start-up, and cancelling several jobs in one thread, which is a sequence of single cancellations.
- Glob.MatchExactIff: leaves out patterns with an escaped star and a star before a double-star component, because there the meaning lost by the replacement may or may not be made up for by the rest of the pattern; Glob.EscapedStarCollapsed is one for which it is not, and StarPatterns.MatchesIff says for every pattern what the recursion accepts.
- Glob.MatchExact: goes one way from its condition; Glob.MatchExactIff has both.
- Platform separators other than `/` in globs.
- The syntax tree walk of `_find_imports`; imports of a file are given. Compiled and built-in modules count as not sent.
- Retries.RetryingFunctionExecutor.Wait: is for a list of different futures, `ALL_COMPLETED` and no raising, because a future listed twice is submitted twice at once and its first resubmission is never waited for.
- Cancelling a future while another thread waits for it.
- Func, data and output keys are any keys without the two suffix texts.
- Cloud SDKs, HTTP, SSH, containers, pickling, logging, configuration, command line and plots.

/** The standalone work queue with everybody at once: jobs being submitted
    (lithops/standalone/master.py handle_job), workers (lithops/standalone/worker.py
    redis_queue_consumer) and cancellations (master.py cancel_job_process), each Redis
    command one step. */
module TaskRaces {
  import opened WorkQueue

  datatype Status = Submitted | Running | Done | Canceled

  /** Where a process stands; each comment names the command that is next. */
  datatype Phase =
    | ToSubmit(job: string, calls: seq<nat>)     // hset of the job
    | Pushing(job: string, calls: seq<nat>)      // lpush of calls[0]
    | AllPushed
    | Idle                                       // brpop, or rpop in `create` mode
    | Popped(task: Task)                         // hget of the status
    | Starting(task: Task)                       // hset RUNNING
    | Working(task: Task)                        // rpush to tasksdone, once the task has run
    | Recorded(task: Task, count: nat)           // hget of total_tasks
    | Finishing(task: Task)                      // hset DONE
    | Left
    | ToCancel(job: string)                      // hget of the queue name
    | Draining(job: string, tmp: seq<Task>)      // llen
    | Taking(job: string, tmp: seq<Task>)        // rpop
    | Refilling(job: string, tmp: seq<Task>)     // lpush of tmp[0]
    | Stopping(job: string)                      // the stop requests
    | Checking(job: string)                      // hget of the status
    | Marking(job: string)                       // hset CANCELED
    | Over
    | Crashed(tmp: seq<Task>)                    // the thread died of an exception

  /** `recorded` holds the `tasksdone` lists of all jobs; `dropped` what a cancellation threw
      away; `stopped` the jobs for which stop requests went out. */
  datatype Redis = Redis(queue: seq<Task>, status: map<string, Status>, total: map<string, nat>,
                         recorded: seq<Task>, dropped: seq<Task>, stopped: set<string>)

  datatype State = State(redis: Redis, phases: seq<Phase>)

  datatype Action =
    | HsetJob | Lpush | EndPushing
    | Pop | Leave | GetStatus | SetRunning | Record | Skip | GetTotal | SetDone
    | GetQueue | Llen | Rpop | PushBack | EndRefill | Stop | CheckStatus | SetCanceled

  function Count(tasks: seq<Task>, p: Task -> bool): nat {
    if tasks == [] then 0 else Count(tasks[1..], p) + if p(tasks[0]) then 1 else 0
  }

  function OfJob(job: string): Task -> bool {
    (t: Task) => t.job == job
  }

  predicate Submitter(v: Redis, v': Redis, ph: Phase, ph': Phase, a: Action) {
    match (ph, a)
    case (ToSubmit(job, calls), HsetJob) =>
      ph' == Pushing(job, calls) && v' == v.(status := v.status[job := Submitted], total := v.total[job := |calls|])
    case (Pushing(job, calls), Lpush) =>
      calls != [] && ph' == Pushing(job, calls[1..]) && v' == v.(queue := [Task(job, calls[0])] + v.queue)
    case (Pushing(job, calls), EndPushing) =>
      calls == [] && ph' == AllPushed && v' == v
    case _ => false
  }

  predicate Worker(v: Redis, v': Redis, ph: Phase, ph': Phase, a: Action) {
    match (ph, a)
    case (Idle, Pop) =>
      && v.queue != [] && ph' == Popped(v.queue[|v.queue| - 1])
      && v' == v.(queue := v.queue[..|v.queue| - 1])
    case (Idle, Leave) => v.queue == [] && ph' == Left && v' == v
    case (Popped(t), GetStatus) =>
      && v' == v
      && ph' == if t.job in v.status && v.status[t.job] == Submitted then Starting(t) else Working(t)
    case (Starting(t), SetRunning) =>
      ph' == Working(t) && v' == v.(status := v.status[t.job := Running])
    case (Working(t), Record) =>
      && v' == v.(recorded := v.recorded + [t])
      && ph' == Recorded(t, Count(v'.recorded, OfJob(t.job)))
    case (Working(t), Skip) =>
      t.job in v.stopped && ph' == Idle && v' == v.(dropped := v.dropped + [t])
    case (Recorded(t, n), GetTotal) =>
      && v' == v
      && ph' == if t.job in v.total && v.total[t.job] == n then Finishing(t) else Idle
    case (Finishing(t), SetDone) =>
      ph' == Idle && v' == v.(status := v.status[t.job := Done])
    case _ => false
  }

  predicate Canceller(v: Redis, v': Redis, ph: Phase, ph': Phase, a: Action) {
    match (ph, a)
    case (ToCancel(job), GetQueue) =>
      v' == v && ph' == if job in v.total then Draining(job, []) else Crashed([])
    case (Draining(job, tmp), Llen) =>
      v' == v && ph' == if |v.queue| > 0 then Taking(job, tmp) else Refilling(job, tmp)
    case (Taking(job, tmp), Rpop) =>
      // With the queue emptied since `llen`, `rpop` gives None and parsing it raises.
      if v.queue == [] then ph' == Crashed(tmp) && v' == v
      else
        var rest, t := v.queue[..|v.queue| - 1], v.queue[|v.queue| - 1];
        if t.job != job then ph' == Draining(job, tmp + [t]) && v' == v.(queue := rest)
        else ph' == Draining(job, tmp) && v' == v.(queue := rest, dropped := v.dropped + [t])
    case (Refilling(job, tmp), PushBack) =>
      tmp != [] && ph' == Refilling(job, tmp[1..]) && v' == v.(queue := [tmp[0]] + v.queue)
    case (Refilling(job, tmp), EndRefill) =>
      tmp == [] && ph' == Stopping(job) && v' == v
    case (Stopping(job), Stop) =>
      ph' == Checking(job) && v' == v.(stopped := v.stopped + {job})
    case (Checking(job), CheckStatus) =>
      v' == v && ph' == if job in v.status && v.status[job] == Done then Over else Marking(job)
    case (Marking(job), SetCanceled) =>
      ph' == Over && v' == v.(status := v.status[job := Canceled])
    case _ => false
  }

  predicate Command(v: Redis, v': Redis, ph: Phase, ph': Phase, a: Action) {
    Submitter(v, v', ph, ph', a) || Worker(v, v', ph, ph', a) || Canceller(v, v', ph, ph', a)
  }

  predicate Next(s: State, s': State, p: nat, a: Action) {
    && p < |s.phases| == |s'.phases|
    && s'.phases == s.phases[p := s'.phases[p]]
    && Command(s.redis, s'.redis, s.phases[p], s'.phases[p], a)
  }

  /** Any number of submissions, workers and cancellations. */
  predicate Init(s: State) {
    && s.redis == Redis([], map[], map[], [], [], {})
    && forall ph :: ph in s.phases ==> ph.ToSubmit? || ph.Idle? || ph.ToCancel?
  }

  datatype Step = Step(p: nat, a: Action)

  ghost predicate IsRun(run: seq<State>, trace: seq<Step>) {
    && |run| == |trace| + 1
    && Init(run[0])
    && forall i :: 0 <= i < |trace| ==> Next(run[i], run[i + 1], trace[i].p, trace[i].a)
  }

  // ----- Sums over the processes

  function Sum(phases: seq<Phase>, f: Phase -> nat): nat {
    if phases == [] then 0 else Sum(phases[1..], f) + f(phases[0])
  }

  lemma {:induction false} SumUpdate(phases: seq<Phase>, f: Phase -> nat, p: nat, ph: Phase)
    requires p < |phases|
    ensures Sum(phases[p := ph], f) + f(phases[p]) == Sum(phases, f) + f(ph)
  {
    if p == 0 {
      assert phases[p := ph][1..] == phases[1..];
    } else {
      SumUpdate(phases[1..], f, p - 1, ph);
      assert phases[p := ph][1..] == phases[1..][p - 1 := ph];
    }
  }

  lemma {:induction false} SumAtLeast(phases: seq<Phase>, f: Phase -> nat, p: nat)
    requires p < |phases|
    ensures f(phases[p]) <= Sum(phases, f)
  {
    if p > 0 {
      SumAtLeast(phases[1..], f, p - 1);
    }
  }

  lemma {:induction false} SumPositive(phases: seq<Phase>, f: Phase -> nat)
    requires Sum(phases, f) > 0
    ensures exists p :: 0 <= p < |phases| && f(phases[p]) > 0
  {
    if f(phases[0]) == 0 {
      SumPositive(phases[1..], f);
      var p :| 0 <= p < |phases[1..]| && f(phases[1..][p]) > 0;
      assert f(phases[p + 1]) > 0;
    }
  }

  // ----- Conservation

  /** The tasks a process has in its hands. */
  function Hand(ph: Phase): seq<Task> {
    match ph
    case ToSubmit(job, calls) => Tasks(job, calls)
    case Pushing(job, calls) => Tasks(job, calls)
    case Popped(t) => [t]
    case Starting(t) => [t]
    case Working(t) => [t]
    case Draining(_, tmp) => tmp
    case Taking(_, tmp) => tmp
    case Refilling(_, tmp) => tmp
    case Crashed(tmp) => tmp
    case _ => []
  }

  function InHand(p: Task -> bool): Phase -> nat {
    (ph: Phase) => Count(Hand(ph), p)
  }

  /** How many tasks of a kind there are in the redis, recorded and dropped ones included. */
  function Stored(v: Redis, p: Task -> bool): nat {
    Count(v.queue, p) + Count(v.recorded, p) + Count(v.dropped, p)
  }

  function Places(s: State, p: Task -> bool): nat {
    Stored(s.redis, p) + Sum(s.phases, InHand(p))
  }

  lemma {:induction false} CountConcat(a: seq<Task>, b: seq<Task>, p: Task -> bool)
    ensures Count(a + b, p) == Count(a, p) + Count(b, p)
  {
    if a == [] {
      assert a + b == b;
    } else {
      assert (a + b)[1..] == a[1..] + b;
      CountConcat(a[1..], b, p);
    }
  }

  lemma CountLast(tasks: seq<Task>, p: Task -> bool)
    requires tasks != []
    ensures Count(tasks, p) == Count(tasks[..|tasks| - 1], p) + if p(tasks[|tasks| - 1]) then 1 else 0
  {
    assert tasks == tasks[..|tasks| - 1] + [tasks[|tasks| - 1]];
    CountConcat(tasks[..|tasks| - 1], [tasks[|tasks| - 1]], p);
  }

  lemma CountAdd(tasks: seq<Task>, t: Task, p: Task -> bool)
    ensures Count(tasks + [t], p) == Count([t] + tasks, p) == Count(tasks, p) + if p(t) then 1 else 0
  {
    CountConcat(tasks, [t], p);
    CountConcat([t], tasks, p);
  }

  lemma SubmitterKeeps(v: Redis, v': Redis, ph: Phase, ph': Phase, a: Action, p: Task -> bool)
    requires Submitter(v, v', ph, ph', a)
    ensures Stored(v', p) + Count(Hand(ph'), p) == Stored(v, p) + Count(Hand(ph), p)
  {
    if a.Lpush? {
      CountAdd(v.queue, Task(ph.job, ph.calls[0]), p);
      assert Hand(ph)[1..] == Hand(ph') && Hand(ph)[0] == Task(ph.job, ph.calls[0]);
    }
  }

  lemma WorkerKeeps(v: Redis, v': Redis, ph: Phase, ph': Phase, a: Action, p: Task -> bool)
    requires Worker(v, v', ph, ph', a)
    ensures Stored(v', p) + Count(Hand(ph'), p) == Stored(v, p) + Count(Hand(ph), p)
  {
    if a.Pop? {
      CountLast(v.queue, p);
    } else if a.Record? {
      CountAdd(v.recorded, ph.task, p);
    } else if a.Skip? {
      CountAdd(v.dropped, ph.task, p);
    }
  }

  lemma CancellerKeeps(v: Redis, v': Redis, ph: Phase, ph': Phase, a: Action, p: Task -> bool)
    requires Canceller(v, v', ph, ph', a)
    ensures Stored(v', p) + Count(Hand(ph'), p) == Stored(v, p) + Count(Hand(ph), p)
  {
    if a.PushBack? {
      PushBackKeeps(v, v', ph, ph', p);
    } else if a.Rpop? && v.queue != [] {
      RpopKeeps(v, v', ph, ph', p);
    } else {
      assert v'.queue == v.queue && v'.recorded == v.recorded && v'.dropped == v.dropped;
      assert Hand(ph') == Hand(ph);
    }
  }

  lemma PushBackKeeps(v: Redis, v': Redis, ph: Phase, ph': Phase, p: Task -> bool)
    requires Canceller(v, v', ph, ph', PushBack)
    ensures Stored(v', p) + Count(Hand(ph'), p) == Stored(v, p) + Count(Hand(ph), p)
  {
    CountAdd(v.queue, ph.tmp[0], p);
    assert Hand(ph) == ph.tmp && Hand(ph') == ph.tmp[1..];
    assert v'.recorded == v.recorded && v'.dropped == v.dropped;
  }

  lemma RpopKeeps(v: Redis, v': Redis, ph: Phase, ph': Phase, p: Task -> bool)
    requires v.queue != [] && Canceller(v, v', ph, ph', Rpop)
    ensures Stored(v', p) + Count(Hand(ph'), p) == Stored(v, p) + Count(Hand(ph), p)
  {
    var t := v.queue[|v.queue| - 1];
    assert Hand(ph) == ph.tmp && v'.queue == v.queue[..|v.queue| - 1] && v'.recorded == v.recorded;
    CountLast(v.queue, p);
    if t.job != ph.job {
      assert Hand(ph') == ph.tmp + [t] && v'.dropped == v.dropped;
      CountAdd(ph.tmp, t, p);
    } else {
      assert Hand(ph') == ph.tmp && v'.dropped == v.dropped + [t];
      CountAdd(v.dropped, t, p);
    }
  }

  lemma PlacesStep(s: State, s': State, i: nat, a: Action, p: Task -> bool)
    requires Next(s, s', i, a)
    ensures Places(s', p) == Places(s, p)
  {
    var v, v', ph, ph' := s.redis, s'.redis, s.phases[i], s'.phases[i];
    SumUpdate(s.phases, InHand(p), i, ph');
    if Submitter(v, v', ph, ph', a) {
      SubmitterKeeps(v, v', ph, ph', a, p);
    } else if Worker(v, v', ph, ph', a) {
      WorkerKeeps(v, v', ph, ph', a, p);
    } else {
      CancellerKeeps(v, v', ph, ph', a, p);
    }
  }

  /** However the processes interleave, tasks of any kind are neither lost nor duplicated:
      queued, recorded, dropped and in hand they are as many as were to be submitted. */
  lemma {:induction false} TaskConservation(run: seq<State>, trace: seq<Step>, i: nat, p: Task -> bool)
    requires IsRun(run, trace) && i < |run|
    ensures Places(run[i], p) == Sum(run[0].phases, InHand(p))
  {
    if i == 0 {
      assert Stored(run[0].redis, p) == 0;
    } else {
      TaskConservation(run, trace, i - 1, p);
      var step := trace[i - 1];
      assert Next(run[i - 1], run[i - 1 + 1], step.p, step.a);
      PlacesStep(run[i - 1], run[i], step.p, step.a, p);
    }
  }

  // ----- What a cancellation throws away

  function Target(ph: Phase): set<string> {
    match ph
    case ToCancel(job) => {job}
    case Draining(job, _) => {job}
    case Taking(job, _) => {job}
    case Refilling(job, _) => {job}
    case Stopping(job) => {job}
    case Checking(job) => {job}
    case Marking(job) => {job}
    case _ => {}
  }

  /** No process is cancelling the job, and none has. */
  predicate NotCancelled(job: string, s: State) {
    && job !in s.redis.stopped
    && Count(s.redis.dropped, OfJob(job)) == 0
    && forall ph :: ph in s.phases ==> job !in Target(ph)
  }

  lemma SubmitterNotCancelling(job: string, v: Redis, v': Redis, ph: Phase, ph': Phase, a: Action)
    requires job !in v.stopped && job !in Target(ph) && Count(v.dropped, OfJob(job)) == 0
    requires Submitter(v, v', ph, ph', a)
    ensures job !in v'.stopped && job !in Target(ph') && Count(v'.dropped, OfJob(job)) == 0
  {
  }

  lemma WorkerNotCancelling(job: string, v: Redis, v': Redis, ph: Phase, ph': Phase, a: Action)
    requires job !in v.stopped && job !in Target(ph) && Count(v.dropped, OfJob(job)) == 0
    requires Worker(v, v', ph, ph', a)
    ensures job !in v'.stopped && job !in Target(ph') && Count(v'.dropped, OfJob(job)) == 0
  {
    if a.Skip? {
      CountAdd(v.dropped, ph.task, OfJob(job));
    }
  }

  lemma CancellerNotCancelling(job: string, v: Redis, v': Redis, ph: Phase, ph': Phase, a: Action)
    requires job !in v.stopped && job !in Target(ph) && Count(v.dropped, OfJob(job)) == 0
    requires Canceller(v, v', ph, ph', a)
    ensures job !in v'.stopped && job !in Target(ph') && Count(v'.dropped, OfJob(job)) == 0
  {
    if a.Rpop? && v.queue != [] {
      CountAdd(v.dropped, v.queue[|v.queue| - 1], OfJob(job));
    }
  }

  lemma NotCancelledStep(job: string, s: State, s': State, i: nat, a: Action)
    requires NotCancelled(job, s) && Next(s, s', i, a)
    ensures NotCancelled(job, s')
  {
    var v, v', ph, ph' := s.redis, s'.redis, s.phases[i], s'.phases[i];
    assert ph in s.phases;
    if Submitter(v, v', ph, ph', a) {
      SubmitterNotCancelling(job, v, v', ph, ph', a);
    } else if Worker(v, v', ph, ph', a) {
      WorkerNotCancelling(job, v, v', ph, ph', a);
    } else {
      CancellerNotCancelling(job, v, v', ph, ph', a);
    }
  }

  lemma {:induction false} NotCancelledRun(job: string, run: seq<State>, trace: seq<Step>, i: nat)
    requires IsRun(run, trace) && i < |run| && ToCancel(job) !in run[0].phases
    ensures NotCancelled(job, run[i])
  {
    if i > 0 {
      NotCancelledRun(job, run, trace, i - 1);
      NotCancelledStep(job, run[i - 1], run[i - 1 + 1], trace[i - 1].p, trace[i - 1].a);
    }
  }

  lemma {:induction false} CountNone(tasks: seq<Task>, p: Task -> bool)
    ensures Count(tasks, p) == 0 <==> forall t :: t in tasks ==> !p(t)
  {
    if tasks != [] {
      CountNone(tasks[1..], p);
      assert tasks == [tasks[0]] + tasks[1..];
    }
  }

  function Exactly(t: Task): Task -> bool {
    (u: Task) => u == t
  }

  /** No task of a job nobody cancels is dropped: it is queued, recorded or in hand, exactly
      as often as it was to be submitted. */
  lemma OthersKept(run: seq<State>, trace: seq<Step>, i: nat, t: Task)
    requires IsRun(run, trace) && i < |run| && ToCancel(t.job) !in run[0].phases
    ensures Count(run[i].redis.queue, Exactly(t)) + Count(run[i].redis.recorded, Exactly(t))
              + Sum(run[i].phases, InHand(Exactly(t))) == Sum(run[0].phases, InHand(Exactly(t)))
  {
    TaskConservation(run, trace, i, Exactly(t));
    NotCancelledRun(t.job, run, trace, i);
    CountNone(run[i].redis.dropped, OfJob(t.job));
    CountNone(run[i].redis.dropped, Exactly(t));
  }

  /** In hand for good: with a canceller that died. */
  function InCrash(p: Task -> bool): Phase -> nat {
    (ph: Phase) => if ph.Crashed? then Count(ph.tmp, p) else 0
  }

  predicate Ended(ph: Phase) {
    ph.AllPushed? || ph.Idle? || ph.Left? || ph.Over? || ph.Crashed?
  }

  lemma {:induction false} OnlyCrashes(phases: seq<Phase>, p: Task -> bool)
    requires forall ph :: ph in phases ==> Ended(ph)
    ensures Sum(phases, InHand(p)) == Sum(phases, InCrash(p))
  {
    if phases != [] {
      OnlyCrashes(phases[1..], p);
      assert Ended(phases[0]);
    }
  }

  /** Once everybody has come to an end, a task of a job nobody cancels is missing exactly as
      often as cancellers of other jobs died with it in hand. */
  lemma LostExactlyInCrashes(run: seq<State>, trace: seq<Step>, i: nat, t: Task)
    requires IsRun(run, trace) && i < |run| && ToCancel(t.job) !in run[0].phases
    requires forall ph :: ph in run[i].phases ==> Ended(ph)
    ensures Count(run[i].redis.queue, Exactly(t)) + Count(run[i].redis.recorded, Exactly(t))
              == Sum(run[0].phases, InHand(Exactly(t))) - Sum(run[i].phases, InCrash(Exactly(t)))
  {
    OthersKept(run, trace, i, t);
    OnlyCrashes(run[i].phases, Exactly(t));
  }

  // ----- Workers that leave

  /** A process that still has tasks to put into the queue. */
  predicate Feeds(ph: Phase) {
    (ph.ToSubmit? || ph.Pushing? || ph.Draining? || ph.Taking? || ph.Refilling?) && Hand(ph) != []
  }

  predicate NobodyFeeds(s: State) {
    forall ph :: ph in s.phases ==> !Feeds(ph)
  }

  lemma SubmitterFeeds(v: Redis, v': Redis, ph: Phase, ph': Phase, a: Action)
    requires Submitter(v, v', ph, ph', a) && v.queue == [] && !Feeds(ph)
    ensures v'.queue == [] && !Feeds(ph')
  {
    assert |Hand(ph)| == |ph.calls|;
  }

  lemma CancellerFeeds(v: Redis, v': Redis, ph: Phase, ph': Phase, a: Action)
    requires Canceller(v, v', ph, ph', a) && v.queue == [] && !Feeds(ph)
    ensures v'.queue == [] && !Feeds(ph')
  {
  }

  lemma StaysEmpty(s: State, s': State, p: nat, a: Action)
    requires Next(s, s', p, a) && s.redis.queue == [] && NobodyFeeds(s)
    ensures s'.redis.queue == [] && NobodyFeeds(s')
  {
    var v, v', ph, ph' := s.redis, s'.redis, s.phases[p], s'.phases[p];
    assert !Feeds(ph);
    if Submitter(v, v', ph, ph', a) {
      SubmitterFeeds(v, v', ph, ph', a);
    } else if Canceller(v, v', ph, ph', a) {
      CancellerFeeds(v, v', ph, ph', a);
    }
    assert !Feeds(ph') && v'.queue == [];
    forall q | 0 <= q < |s'.phases|
      ensures !Feeds(s'.phases[q])
    {
      assert q != p ==> s'.phases[q] == s.phases[q];
    }
  }

  /** A worker that leaves leaves nothing behind: unless somebody still has tasks to put into
      the queue when it leaves, the queue is empty and stays so. */
  lemma {:induction false} LeavesNothing(run: seq<State>, trace: seq<Step>, i: nat, j: nat)
    requires IsRun(run, trace) && i < |trace| && i <= j <= |trace|
    requires trace[i].a == Leave && NobodyFeeds(run[i])
    ensures run[j].redis.queue == [] && NobodyFeeds(run[j])
  {
    assert Next(run[i], run[i + 1], trace[i].p, trace[i].a);
    if j > i {
      LeavesNothing(run, trace, i, j - 1);
      StaysEmpty(run[j - 1], run[j - 1 + 1], trace[j - 1].p, trace[j - 1].a);
    }
  }
}

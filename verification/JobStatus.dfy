/** The status of a standalone job, written by racing workers (lithops/standalone/worker.py
    notify_task_start and notify_task_done), for a job that is not cancelled. */
module JobStatus {
  import opened WorkQueue
  import opened TaskRaces
  import CancelRaces

  predicate Known(v: Redis, job: string) {
    job in v.status && job in v.total
  }

  predicate TotalRight(v: Redis, job: string, total: nat) {
    job in v.total ==> v.total[job] == total
  }

  predicate Submits(ph: Phase, job: string) {
    ph.ToSubmit? && ph.job == job
  }

  /** The job is submitted by process p and by no other. */
  predicate SubmittedBy(s: State, p: nat, job: string, calls: seq<nat>) {
    && p < |s.phases|
    && (forall q :: 0 <= q < |s.phases| && q != p ==> !Submits(s.phases[q], job))
    && TotalRight(s.redis, job, |calls|)
    && (s.phases[p] == ToSubmit(job, calls) || (Known(s.redis, job) && !Submits(s.phases[p], job)))
  }

  /** Whether a worker is bound to write DONE: it recorded the last task of the job. */
  predicate Writes(ph: Phase, job: string, total: nat) {
    match ph
    case Recorded(t, n) => t.job == job && n == total
    case Finishing(t) => t.job == job
    case _ => false
  }

  function Writer(job: string, total: nat): Phase -> nat {
    (ph: Phase) => if Writes(ph, job, total) then 1 else 0
  }

  function DoneFlag(v: Redis, job: string): nat {
    if job in v.status && v.status[job] == Done then 1 else 0
  }

  predicate AllRecorded(v: Redis, job: string, total: nat) {
    total > 0 && Count(v.recorded, OfJob(job)) == total
  }

  function AllRecordedFlag(v: Redis, job: string, total: nat): nat {
    if AllRecorded(v, job, total) then 1 else 0
  }

  /** The last record makes one writer, and the writer makes the status DONE. */
  predicate OneWriter(s: State, job: string, total: nat) {
    Sum(s.phases, Writer(job, total)) + DoneFlag(s.redis, job) == AllRecordedFlag(s.redis, job, total)
  }

  /** The tasks of the job, wherever they are, are as many as its calls. */
  predicate TasksKept(s: State, job: string, total: nat) {
    Places(s, OfJob(job)) == total
  }

  /** What a step of one process needs to know of the others. */
  predicate Local(v: Redis, ph: Phase, job: string, total: nat) {
    && Count(v.recorded, OfJob(job)) + Count(Hand(ph), OfJob(job)) <= total
    && (AllRecorded(v, job, total) ==> Known(v, job))
    && Writer(job, total)(ph) + DoneFlag(v, job) <= AllRecordedFlag(v, job, total)
    && TotalRight(v, job, total)
    && job !in Target(ph) && (Submits(ph, job) ==> |ph.calls| == total)
  }

  lemma {:induction false} HandsOfJob(job: string, calls: seq<nat>)
    ensures Count(Tasks(job, calls), OfJob(job)) == |calls|
  {
    if calls != [] {
      HandsOfJob(job, calls[1..]);
      assert Tasks(job, calls)[1..] == Tasks(job, calls[1..]);
    }
  }

  /** One process's part in OneWriter. */
  function Balance(v: Redis, ph: Phase, job: string, total: nat): int {
    Writer(job, total)(ph) + DoneFlag(v, job) - AllRecordedFlag(v, job, total)
  }

  predicate IsFinishing(ph: Phase, job: string) {
    ph.Finishing? && ph.task.job == job
  }

  /** DONE comes from a worker's SetDone, only where it was not yet, and never goes. */
  predicate WritesOnce(v: Redis, v': Redis, ph: Phase, a: Action, job: string) {
    if DoneFlag(v, job) == 1 then DoneFlag(v', job) == 1 && !(a == SetDone && IsFinishing(ph, job))
    else DoneFlag(v', job) == 1 <==> a == SetDone && IsFinishing(ph, job)
  }

  lemma SubmitterBalance(v: Redis, v': Redis, ph: Phase, ph': Phase, a: Action, job: string, total: nat)
    requires Submitter(v, v', ph, ph', a) && Local(v, ph, job, total)
    ensures Balance(v', ph', job, total) == Balance(v, ph, job, total)
    ensures WritesOnce(v, v', ph, a, job)
  {
    if a.HsetJob? {
      HandsOfJob(ph.job, ph.calls);
    }
  }

  lemma WorkerBalance(v: Redis, v': Redis, ph: Phase, ph': Phase, a: Action, job: string, total: nat)
    requires Worker(v, v', ph, ph', a) && Local(v, ph, job, total)
    ensures Balance(v', ph', job, total) == Balance(v, ph, job, total)
    ensures WritesOnce(v, v', ph, a, job)
  {
    if a.Record? {
      CountAdd(v.recorded, ph.task, OfJob(job));
    }
  }

  lemma CancellerBalance(v: Redis, v': Redis, ph: Phase, ph': Phase, a: Action, job: string, total: nat)
    requires Canceller(v, v', ph, ph', a) && Local(v, ph, job, total)
    ensures Balance(v', ph', job, total) == Balance(v, ph, job, total)
    ensures WritesOnce(v, v', ph, a, job)
  {
  }

  predicate Inv(s: State, p: nat, job: string, calls: seq<nat>) {
    && SubmittedBy(s, p, job, calls)
    && TasksKept(s, job, |calls|)
    && NotCancelled(job, s)
    && OneWriter(s, job, |calls|)
  }

  lemma SubmitterTotals(v: Redis, v': Redis, ph: Phase, ph': Phase, a: Action, job: string, total: nat)
    requires Submitter(v, v', ph, ph', a) && TotalRight(v, job, total) && (Submits(ph, job) ==> |ph.calls| == total)
    ensures TotalRight(v', job, total) && !ph'.ToSubmit?
    ensures Known(v, job) || Submits(ph, job) ==> Known(v', job)
  {
  }

  lemma WorkerTotals(v: Redis, v': Redis, ph: Phase, ph': Phase, a: Action, job: string, total: nat)
    requires Worker(v, v', ph, ph', a) && TotalRight(v, job, total) && (Submits(ph, job) ==> |ph.calls| == total)
    ensures TotalRight(v', job, total) && !ph'.ToSubmit?
    ensures Known(v, job) || Submits(ph, job) ==> Known(v', job)
  {
  }

  lemma CancellerTotals(v: Redis, v': Redis, ph: Phase, ph': Phase, a: Action, job: string, total: nat)
    requires Canceller(v, v', ph, ph', a) && TotalRight(v, job, total) && (Submits(ph, job) ==> |ph.calls| == total)
    ensures TotalRight(v', job, total) && !ph'.ToSubmit?
    ensures Known(v, job) || Submits(ph, job) ==> Known(v', job)
  {
  }

  lemma SubmittedByStep(s: State, s': State, p: nat, job: string, calls: seq<nat>, i: nat, a: Action)
    requires SubmittedBy(s, p, job, calls) && Next(s, s', i, a)
    ensures SubmittedBy(s', p, job, calls)
  {
    var v, v', ph, ph' := s.redis, s'.redis, s.phases[i], s'.phases[i];
    if Submitter(v, v', ph, ph', a) {
      SubmitterTotals(v, v', ph, ph', a, job, |calls|);
    } else if Worker(v, v', ph, ph', a) {
      WorkerTotals(v, v', ph, ph', a, job, |calls|);
    } else {
      CancellerTotals(v, v', ph, ph', a, job, |calls|);
    }
  }

  lemma LocalHolds(s: State, p: nat, job: string, calls: seq<nat>, q: nat)
    requires Inv(s, p, job, calls) && q < |s.phases|
    ensures Local(s.redis, s.phases[q], job, |calls|)
  {
    SumAtLeast(s.phases, InHand(OfJob(job)), q);
    SumAtLeast(s.phases, InHand(OfJob(job)), p);
    SumAtLeast(s.phases, Writer(job, |calls|), q);
    HandsOfJob(job, calls);
    assert s.phases[q] in s.phases;
  }

  lemma CommandBalance(v: Redis, v': Redis, ph: Phase, ph': Phase, a: Action, job: string, total: nat)
    requires Command(v, v', ph, ph', a) && Local(v, ph, job, total)
    ensures Balance(v', ph', job, total) == Balance(v, ph, job, total)
    ensures WritesOnce(v, v', ph, a, job)
  {
    if Submitter(v, v', ph, ph', a) {
      SubmitterBalance(v, v', ph, ph', a, job, total);
    } else if Worker(v, v', ph, ph', a) {
      WorkerBalance(v, v', ph, ph', a, job, total);
    } else {
      CancellerBalance(v, v', ph, ph', a, job, total);
    }
  }

  lemma OneWriterStep(s: State, s': State, p: nat, job: string, calls: seq<nat>, i: nat, a: Action)
    requires Inv(s, p, job, calls) && Next(s, s', i, a)
    ensures OneWriter(s', job, |calls|)
    ensures WritesOnce(s.redis, s'.redis, s.phases[i], a, job)
  {
    LocalHolds(s, p, job, calls, i);
    CommandBalance(s.redis, s'.redis, s.phases[i], s'.phases[i], a, job, |calls|);
    SumUpdate(s.phases, Writer(job, |calls|), i, s'.phases[i]);
  }

  lemma InvStep(s: State, s': State, p: nat, job: string, calls: seq<nat>, i: nat, a: Action)
    requires Inv(s, p, job, calls) && Next(s, s', i, a)
    ensures Inv(s', p, job, calls)
  {
    SubmittedByStep(s, s', p, job, calls, i, a);
    PlacesStep(s, s', i, a, OfJob(job));
    NotCancelledStep(job, s, s', i, a);
    OneWriterStep(s, s', p, job, calls, i, a);
  }

  /** The job is submitted once, by process p, and not cancelled. */
  predicate OnlyJob(s: State, p: nat, job: string, calls: seq<nat>) {
    && p < |s.phases| && s.phases[p] == ToSubmit(job, calls)
    && (forall q :: 0 <= q < |s.phases| && q != p && s.phases[q].ToSubmit? ==> s.phases[q].job != job)
    && ToCancel(job) !in s.phases
  }

  lemma {:induction false} NoOthersTasks(phases: seq<Phase>, job: string)
    requires forall ph :: ph in phases ==> ph.Idle? || ph.ToCancel? || (ph.ToSubmit? && ph.job != job)
    ensures Sum(phases, InHand(OfJob(job))) == 0
  {
    if phases != [] {
      NoOthersTasks(phases[1..], job);
      CountNone(Hand(phases[0]), OfJob(job));
      assert phases[0] in phases;
    }
  }

  lemma {:induction false} NoWriters(phases: seq<Phase>, job: string, total: nat)
    requires forall ph :: ph in phases ==> !Writes(ph, job, total)
    ensures Sum(phases, Writer(job, total)) == 0
  {
    if phases != [] {
      NoWriters(phases[1..], job, total);
      assert phases[0] in phases;
    }
  }

  lemma InitInv(s: State, p: nat, job: string, calls: seq<nat>)
    requires Init(s) && OnlyJob(s, p, job, calls)
    ensures Inv(s, p, job, calls)
  {
    var others := s.phases[p := Idle];
    forall ph | ph in others
      ensures ph.Idle? || ph.ToCancel? || (ph.ToSubmit? && ph.job != job)
    {
      var q :| 0 <= q < |others| && others[q] == ph;
      if q != p {
        assert s.phases[q] in s.phases;
      }
    }
    NoOthersTasks(others, job);
    SumUpdate(s.phases, InHand(OfJob(job)), p, Idle);
    HandsOfJob(job, calls);
    NoWriters(s.phases, job, |calls|);
  }

  lemma {:induction false} InvRun(run: seq<State>, trace: seq<Step>, i: nat, p: nat, job: string, calls: seq<nat>)
    requires IsRun(run, trace) && i < |run| && OnlyJob(run[0], p, job, calls)
    ensures Inv(run[i], p, job, calls)
  {
    if i == 0 {
      InitInv(run[0], p, job, calls);
    } else {
      InvRun(run, trace, i - 1, p, job, calls);
      var step := trace[i - 1];
      assert Next(run[i - 1], run[i - 1 + 1], step.p, step.a);
      InvStep(run[i - 1], run[i], p, job, calls, step.p, step.a);
    }
  }

  // ----- What it means

  predicate IsDone(s: State, job: string) {
    job in s.redis.status && s.redis.status[job] == Done
  }

  /** DONE means that all tasks are recorded. */
  lemma DoneMeansRecorded(run: seq<State>, trace: seq<Step>, i: nat, p: nat, job: string, calls: seq<nat>)
    requires IsRun(run, trace) && i < |run| && OnlyJob(run[0], p, job, calls) && IsDone(run[i], job)
    ensures Count(run[i].redis.recorded, OfJob(job)) == |calls| > 0
    ensures Count(run[i].redis.queue, OfJob(job)) == 0 && Sum(run[i].phases, InHand(OfJob(job))) == 0
  {
    InvRun(run, trace, i, p, job, calls);
  }

  predicate SetsDone(s: State, step: Step, job: string) {
    step.a == SetDone && step.p < |s.phases| && IsFinishing(s.phases[step.p], job)
  }

  /** DONE is written when it was not there, and no other command touches the status of a job
      that is DONE. */
  lemma DoneSticks(run: seq<State>, trace: seq<Step>, i: nat, p: nat, job: string, calls: seq<nat>)
    requires IsRun(run, trace) && i < |trace| && OnlyJob(run[0], p, job, calls)
    ensures IsDone(run[i], job) ==> IsDone(run[i + 1], job) && !SetsDone(run[i], trace[i], job)
    ensures !IsDone(run[i], job) && IsDone(run[i + 1], job) <==> SetsDone(run[i], trace[i], job)
  {
    InvRun(run, trace, i, p, job, calls);
    var s, s', step := run[i], run[i + 1], trace[i];
    assert Next(s, s', step.p, step.a);
    OneWriterStep(s, s', p, job, calls, step.p, step.a);
  }

  lemma {:induction false} DoneStays(run: seq<State>, trace: seq<Step>, i: nat, k: nat, p: nat, job: string,
                                     calls: seq<nat>)
    requires IsRun(run, trace) && i <= k < |run| && OnlyJob(run[0], p, job, calls) && IsDone(run[i], job)
    ensures IsDone(run[k], job)
  {
    if i < k {
      var m := k - 1;
      DoneStays(run, trace, i, m, p, job, calls);
      DoneSticks(run, trace, m, p, job, calls);
    }
  }

  /** Over the whole run DONE is written once, by one worker. */
  lemma OneWorkerWritesDone(run: seq<State>, trace: seq<Step>, i: nat, k: nat, p: nat, job: string, calls: seq<nat>)
    requires IsRun(run, trace) && i < |trace| && k < |trace| && OnlyJob(run[0], p, job, calls)
    requires SetsDone(run[i], trace[i], job) && SetsDone(run[k], trace[k], job)
    ensures i == k
  {
    var first, second := if i < k then i else k, if i < k then k else i;
    DoneSticks(run, trace, first, p, job, calls);
    DoneSticks(run, trace, second, p, job, calls);
    if first < second {
      DoneStays(run, trace, first + 1, second, p, job, calls);
    }
  }

  /** Everybody has come to an end and the queue is empty. */
  predicate Settled(s: State) {
    s.redis.queue == [] && forall ph :: ph in s.phases ==> Ended(ph)
  }

  /** When everything has run, the job is DONE, except where the canceller of another job died
      with a task of it in hand, and except where it had no calls at all: then nobody ever
      writes DONE. */
  lemma DoneInTheEnd(run: seq<State>, trace: seq<Step>, i: nat, p: nat, job: string, calls: seq<nat>)
    requires IsRun(run, trace) && i < |run| && OnlyJob(run[0], p, job, calls) && Settled(run[i])
    ensures IsDone(run[i], job) <==> calls != [] && Sum(run[i].phases, InCrash(OfJob(job))) == 0
  {
    InvRun(run, trace, i, p, job, calls);
    SettledDone(run[i], p, job, calls);
  }

  lemma SettledDone(s: State, p: nat, job: string, calls: seq<nat>)
    requires Inv(s, p, job, calls) && Settled(s)
    ensures IsDone(s, job) <==> calls != [] && Sum(s.phases, InCrash(OfJob(job))) == 0
  {
    OnlyCrashes(s.phases, OfJob(job));
    NoWriters(s.phases, job, |calls|);
    assert DoneFlag(s.redis, job) == 1 <==> IsDone(s, job);
  }

  // ----- RUNNING

  predicate RunningOrDone(v: Redis, job: string) {
    job in v.status && (v.status[job] == Running || v.status[job] == Done)
  }

  /** A worker that has told that a task of the job started. */
  predicate Begun(ph: Phase, job: string) {
    (ph.Working? || ph.Recorded? || ph.Finishing?) && ph.task.job == job
  }

  /** The status is there from the submission on, and RUNNING or DONE once a task has begun. */
  predicate StatusInv(s: State, p: nat, job: string)
    requires p < |s.phases|
  {
    && (Submits(s.phases[p], job) <==> job !in s.redis.status)
    && (job in s.redis.status ==> s.redis.status[job] != Canceled)
    && forall q :: 0 <= q < |s.phases| && Begun(s.phases[q], job) ==> RunningOrDone(s.redis, job)
  }

  /** A task of the job that somebody else holds has been submitted. */
  lemma HeldIsSubmitted(s: State, p: nat, job: string, calls: seq<nat>, q: nat)
    requires Inv(s, p, job, calls) && q < |s.phases| && q != p && Count(Hand(s.phases[q]), OfJob(job)) > 0
    ensures !Submits(s.phases[p], job)
  {
    var mine := InHand(OfJob(job));
    SumUpdate(s.phases, mine, p, Idle);
    SumAtLeast(s.phases[p := Idle], mine, q);
    HandsOfJob(job, calls);
  }

  predicate WritesRunning(ph: Phase, a: Action, job: string) {
    a == SetRunning && ph.Starting? && ph.task.job == job
  }

  /** What one command does to the status of the job. */
  predicate StatusMoves(v: Redis, v': Redis, ph: Phase, a: Action, job: string) {
    if a == HsetJob && Submits(ph, job) then job in v'.status && v'.status[job] == Submitted
    else if WritesRunning(ph, a, job) then job in v'.status && v'.status[job] == Running
    else if a == SetDone && IsFinishing(ph, job) then job in v'.status && v'.status[job] == Done
    else (job in v'.status <==> job in v.status) && (job in v.status ==> v'.status[job] == v.status[job])
  }

  /** How a process comes to have begun a task: it has written RUNNING, or has seen that the
      status is not SUBMITTED any more. */
  predicate BeginsWell(v: Redis, ph: Phase, ph': Phase, a: Action, job: string) {
    Begun(ph', job) ==>
      || Begun(ph, job) || WritesRunning(ph, a, job)
      || (ph.Popped? && ph.task.job == job && !(job in v.status && v.status[job] == Submitted))
  }

  lemma SubmitterStatus(v: Redis, v': Redis, ph: Phase, ph': Phase, a: Action, job: string)
    requires Submitter(v, v', ph, ph', a)
    ensures StatusMoves(v, v', ph, a, job) && BeginsWell(v, ph, ph', a, job)
    ensures Submits(ph', job) ==> Submits(ph, job) && a != HsetJob
    ensures Submits(ph, job) ==> a == HsetJob && !Submits(ph', job)
  {
  }

  lemma WorkerStatus(v: Redis, v': Redis, ph: Phase, ph': Phase, a: Action, job: string)
    requires Worker(v, v', ph, ph', a)
    ensures StatusMoves(v, v', ph, a, job) && BeginsWell(v, ph, ph', a, job)
    ensures !Submits(ph, job) && !Submits(ph', job)
  {
  }

  lemma CancellerStatus(v: Redis, v': Redis, ph: Phase, ph': Phase, a: Action, job: string)
    requires Canceller(v, v', ph, ph', a) && job !in Target(ph)
    ensures StatusMoves(v, v', ph, a, job) && BeginsWell(v, ph, ph', a, job)
    ensures !Submits(ph, job) && !Submits(ph', job)
  {
  }

  lemma StatusCommand(v: Redis, v': Redis, ph: Phase, ph': Phase, a: Action, job: string)
    requires Command(v, v', ph, ph', a) && job !in Target(ph)
    ensures StatusMoves(v, v', ph, a, job) && BeginsWell(v, ph, ph', a, job)
    ensures !Submits(ph', job) && (Submits(ph, job) ==> a == HsetJob)
  {
    if Submitter(v, v', ph, ph', a) {
      SubmitterStatus(v, v', ph, ph', a, job);
    } else if Worker(v, v', ph, ph', a) {
      WorkerStatus(v, v', ph, ph', a, job);
    } else {
      CancellerStatus(v, v', ph, ph', a, job);
    }
  }

  /** With the status as the invariant has it, it stays so for those who do not move. */
  lemma StatusKept(v: Redis, v': Redis, ph: Phase, a: Action, job: string)
    requires StatusMoves(v, v', ph, a, job) && (Submits(ph, job) ==> job !in v.status)
    requires job in v.status ==> v.status[job] != Canceled
    ensures job in v'.status ==> v'.status[job] != Canceled
    ensures RunningOrDone(v, job) ==> RunningOrDone(v', job)
    ensures WritesRunning(ph, a, job) ==> RunningOrDone(v', job)
    ensures job in v'.status <==>
              || job in v.status || (a == HsetJob && Submits(ph, job))
              || WritesRunning(ph, a, job) || (a == SetDone && IsFinishing(ph, job))
  {
  }

  /** Whoever has a task of the job in hand has one that was submitted. */
  lemma HolderSubmitted(s: State, p: nat, job: string, calls: seq<nat>, q: nat)
    requires Inv(s, p, job, calls) && q < |s.phases| && p < |s.phases|
    requires s.phases[q].Popped? || s.phases[q].Starting?
    requires s.phases[q].task.job == job
    ensures !Submits(s.phases[p], job)
  {
    if q != p {
      assert Hand(s.phases[q]) == [s.phases[q].task] && OfJob(job)(s.phases[q].task);
      CountNone(Hand(s.phases[q]), OfJob(job));
      HeldIsSubmitted(s, p, job, calls, q);
    }
  }

  lemma StatusInvStep(s: State, s': State, p: nat, job: string, calls: seq<nat>, i: nat, a: Action)
    requires Inv(s, p, job, calls) && StatusInv(s, p, job) && Next(s, s', i, a)
    ensures StatusInv(s', p, job)
  {
    var v, v', ph, ph' := s.redis, s'.redis, s.phases[i], s'.phases[i];
    assert ph in s.phases;
    StatusCommand(v, v', ph, ph', a, job);
    assert Submits(ph, job) ==> i == p;
    StatusKept(v, v', ph, a, job);
    if (ph.Popped? || ph.Starting?) && ph.task.job == job {
      HolderSubmitted(s, p, job, calls, i);
    }
    if IsFinishing(ph, job) {
      assert Begun(s.phases[i], job);
    }
    forall q | 0 <= q < |s'.phases| && Begun(s'.phases[q], job)
      ensures RunningOrDone(v', job)
    {
      assert q != i ==> s'.phases[q] == s.phases[q] && Begun(s.phases[q], job);
    }
  }

  lemma {:induction false} StatusInvRun(run: seq<State>, trace: seq<Step>, i: nat, p: nat, job: string, calls: seq<nat>)
    requires IsRun(run, trace) && i < |run| && OnlyJob(run[0], p, job, calls)
    ensures p < |run[i].phases| && StatusInv(run[i], p, job)
  {
    if i == 0 {
      forall q | 0 <= q < |run[0].phases|
        ensures !Begun(run[0].phases[q], job)
      {
        assert run[0].phases[q] in run[0].phases;
      }
    } else {
      var m := i - 1;
      StatusInvRun(run, trace, m, p, job, calls);
      InvRun(run, trace, m, p, job, calls);
      assert Next(run[m], run[m + 1], trace[m].p, trace[m].a);
      StatusInvStep(run[m], run[i], p, job, calls, trace[m].p, trace[m].a);
    }
  }

  /** Whenever a worker has begun a task of the job, the job is RUNNING or DONE. */
  lemma RunningOnceBegun(run: seq<State>, trace: seq<Step>, i: nat, p: nat, job: string, calls: seq<nat>, q: nat)
    requires IsRun(run, trace) && i < |run| && OnlyJob(run[0], p, job, calls)
    requires q < |run[i].phases| && Begun(run[i].phases[q], job)
    ensures RunningOrDone(run[i].redis, job)
  {
    StatusInvRun(run, trace, i, p, job, calls);
  }

  /** Step m is a worker writing RUNNING for the job. */
  predicate SetsRunning(run: seq<State>, trace: seq<Step>, m: nat, job: string)
    requires m < |run| && m < |trace|
  {
    trace[m].p < |run[m].phases| && WritesRunning(run[m].phases[trace[m].p], trace[m].a, job)
  }

  ghost predicate RunningWritten(run: seq<State>, trace: seq<Step>, i: nat, job: string)
    requires i <= |trace| < |run|
  {
    exists m: nat :: m < i && SetsRunning(run, trace, m, job)
  }

  lemma WrittenStep(run: seq<State>, trace: seq<Step>, l: nat, job: string)
    requires l < |trace| < |run|
    ensures RunningWritten(run, trace, l + 1, job) <==>
              RunningWritten(run, trace, l, job) || SetsRunning(run, trace, l, job)
  {
  }

  /** The status of the job, for every moment of every run: there from the submission on, and
      SUBMITTED until a worker has written RUNNING. */
  lemma {:induction false} StatusIs(run: seq<State>, trace: seq<Step>, i: nat, p: nat, job: string, calls: seq<nat>)
    requires IsRun(run, trace) && i < |run| && OnlyJob(run[0], p, job, calls)
    ensures p < |run[i].phases| && (job in run[i].redis.status <==> run[i].phases[p] != ToSubmit(job, calls))
    ensures RunningOrDone(run[i].redis, job) <==> RunningWritten(run, trace, i, job)
    ensures job in run[i].redis.status && !RunningOrDone(run[i].redis, job) ==>
              run[i].redis.status[job] == Submitted
  {
    StatusInvRun(run, trace, i, p, job, calls);
    InvRun(run, trace, i, p, job, calls);
    if i > 0 {
      var l := i - 1;
      StatusIs(run, trace, l, p, job, calls);
      StatusInvRun(run, trace, l, p, job, calls);
      InvRun(run, trace, l, p, job, calls);
      assert Next(run[l], run[l + 1], trace[l].p, trace[l].a);
      RunningStep(run, trace, l, p, job, calls);
      WrittenStep(run, trace, l, job);
    }
  }

  lemma RunningStep(run: seq<State>, trace: seq<Step>, l: nat, p: nat, job: string, calls: seq<nat>)
    requires l < |trace| && |run| == |trace| + 1 && Next(run[l], run[l + 1], trace[l].p, trace[l].a)
    requires Inv(run[l], p, job, calls) && StatusInv(run[l], p, job)
    ensures RunningOrDone(run[l + 1].redis, job) <==>
              RunningOrDone(run[l].redis, job) || SetsRunning(run, trace, l, job)
  {
    var s, step := run[l], trace[l];
    var ph := s.phases[step.p];
    assert ph in s.phases;
    StatusCommand(s.redis, run[l + 1].redis, ph, run[l + 1].phases[step.p], step.a, job);
    assert Submits(ph, job) ==> step.p == p;
    StatusKept(s.redis, run[l + 1].redis, ph, step.a, job);
    assert IsFinishing(ph, job) ==> Begun(s.phases[step.p], job);
  }

  // ----- What it means for those who start

  /** Some canceller of another job died with a task of the job. */
  ghost predicate Lost(s: State, job: string) {
    exists q: nat, t: Task :: CancelRaces.DiedWith(s, q, t) && t.job == job
  }

  /** The job can lose a task: it has one, a canceller of a submitted job and somebody else
      who takes tasks are there, and altogether there are at least two tasks. */
  ghost predicate CanBeLost(s0: State, calls: seq<nat>) {
    && calls != []
    && (exists c: nat, q: nat :: CancelRaces.Contend(s0, c, q))
    && Sum(s0.phases, CancelRaces.Calls()) >= 2
  }

  /** For every set of processes: whether a job that nobody cancels can lose a task. */
  lemma LostIff(s0: State, p: nat, job: string, calls: seq<nat>)
    requires Init(s0) && OnlyJob(s0, p, job, calls)
    ensures (exists s :: CancelRaces.Reaches(s0, s) && Lost(s, job)) <==> CanBeLost(s0, calls)
  {
    if s :| CancelRaces.Reaches(s0, s) && Lost(s, job) {
      var run, trace :| CancelRaces.Path(s0, s, run, trace);
      assert IsRun(run, trace);
      LostOnlyThen(run, trace, |trace|, p, job, calls);
    }
    if CanBeLost(s0, calls) {
      var c: nat, q: nat :| CancelRaces.Contend(s0, c, q);
      var s := CancelRaces.SubmitAll(s0, p);
      var end := CancelRaces.DiesWith(s0, s, c, q, Task(job, calls[0]));
    }
  }

  lemma LostOnlyThen(run: seq<State>, trace: seq<Step>, i: nat, p: nat, job: string, calls: seq<nat>)
    requires IsRun(run, trace) && i < |run| && OnlyJob(run[0], p, job, calls) && Lost(run[i], job)
    ensures CanBeLost(run[0], calls)
  {
    var q: nat, t: Task :| CancelRaces.DiedWith(run[i], q, t) && t.job == job;
    assert CancelRaces.LostBy(run[0], run[i], q, t);
    CancelRaces.LosesOnlyThen(run, trace, i);
    CancelRaces.TaskSubmitted(run, trace, i, q, t);
  }

  lemma {:induction false} DeadStay(run: seq<State>, trace: seq<Step>, i: nat, k: nat, q: nat, t: Task)
    requires IsRun(run, trace) && i <= k < |run| && CancelRaces.DiedWith(run[i], q, t)
    ensures CancelRaces.DiedWith(run[k], q, t)
  {
    if i < k {
      var m := k - 1;
      DeadStay(run, trace, i, m, q, t);
      assert Next(run[m], run[m + 1], trace[m].p, trace[m].a);
    }
  }

  lemma InDeadHands(s: State, q: nat, t: Task)
    requires CancelRaces.DiedWith(s, q, t)
    ensures Sum(s.phases, InHand(OfJob(t.job))) > 0
  {
    var mine := OfJob(t.job);
    CountNone(s.phases[q].tmp, mine);
    assert mine(t) && Hand(s.phases[q]) == s.phases[q].tmp;
    SumAtLeast(s.phases, InHand(mine), q);
  }

  /** A job that has lost a task never becomes DONE. */
  lemma LostNeverDone(run: seq<State>, trace: seq<Step>, i: nat, k: nat, p: nat, job: string, calls: seq<nat>)
    requires IsRun(run, trace) && i <= k < |run| && OnlyJob(run[0], p, job, calls) && Lost(run[i], job)
    ensures !IsDone(run[k], job)
  {
    var q: nat, t: Task :| CancelRaces.DiedWith(run[i], q, t) && t.job == job;
    DeadStay(run, trace, i, k, q, t);
    if IsDone(run[k], job) {
      DoneMeansRecorded(run, trace, k, p, job, calls);
      InDeadHands(run[k], q, t);
    }
  }

  /** And a job that has calls and cannot lose a task does, in every run, once everybody has
      come to an end. */
  lemma DoneUnlessLost(run: seq<State>, trace: seq<Step>, i: nat, p: nat, job: string, calls: seq<nat>)
    requires IsRun(run, trace) && i < |run| && OnlyJob(run[0], p, job, calls) && Settled(run[i])
    requires calls != [] && !CanBeLost(run[0], calls)
    ensures IsDone(run[i], job)
  {
    DoneInTheEnd(run, trace, i, p, job, calls);
    var crashed := InCrash(OfJob(job));
    if Sum(run[i].phases, crashed) > 0 {
      SumPositive(run[i].phases, crashed);
      var q :| 0 <= q < |run[i].phases| && crashed(run[i].phases[q]) > 0;
      CountNone(run[i].phases[q].tmp, OfJob(job));
      var t :| t in run[i].phases[q].tmp && OfJob(job)(t);
      assert CancelRaces.DiedWith(run[i], q, t);
      LostOnlyThen(run, trace, i, p, job, calls);
    }
  }
}

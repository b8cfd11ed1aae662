/** Which constellations let a cancellation lose the tasks of other jobs
    (lithops/standalone/master.py, cancel_job_process): `llen` and `rpop` are two commands,
    and a thread that pops nothing dies of an exception with the tasks it took off the queue. */
module CancelRaces {
  import opened WorkQueue
  import opened TaskRaces

  // ----- The condition, on the processes as they start

  function SubmittedJobs(s0: State): set<string> {
    set ph | ph in s0.phases && ph.ToSubmit? :: ph.job
  }

  /** A process that will take tasks off the queue: a worker, or the canceller of a job that
      is submitted; any other canceller does not find a queue. */
  predicate CanPop(ph: Phase, jobs: set<string>) {
    ph.Idle? || (ph.ToCancel? && ph.job in jobs)
  }

  function Calls(): Phase -> nat {
    (ph: Phase) => if ph.ToSubmit? then |ph.calls| else 0
  }

  /** A canceller and somebody else who takes tasks, at least two tasks, and one of them of a
      job nobody cancels. */
  ghost predicate CanLose(s0: State) {
    && (exists c: nat, q: nat :: Contend(s0, c, q))
    && (exists ph :: ph in s0.phases && ph.ToSubmit? && ph.calls != [] && ToCancel(ph.job) !in s0.phases)
    && Sum(s0.phases, Calls()) >= 2
  }

  predicate Contend(s0: State, c: nat, q: nat) {
    && c < |s0.phases| && q < |s0.phases| && c != q
    && s0.phases[c].ToCancel? && CanPop(s0.phases[c], SubmittedJobs(s0)) && CanPop(s0.phases[q], SubmittedJobs(s0))
  }

  /** Some canceller died with the task of a job nobody cancels. */
  ghost predicate LostOther(s0: State, s: State) {
    exists p: nat, t: Task :: LostBy(s0, s, p, t)
  }

  predicate LostBy(s0: State, s: State, p: nat, t: Task) {
    DiedWith(s, p, t) && ToCancel(t.job) !in s0.phases
  }

  /** A dead canceller has task t in its hands. */
  predicate DiedWith(s: State, p: nat, t: Task) {
    p < |s.phases| && s.phases[p].Crashed? && t in s.phases[p].tmp
  }

  function Any(): Task -> bool {
    (t: Task) => true
  }

  lemma {:induction false} CountAny(tasks: seq<Task>)
    ensures Count(tasks, Any()) == |tasks|
  {
    if tasks != [] {
      CountAny(tasks[1..]);
    }
  }

  lemma {:induction false} AllCalls(phases: seq<Phase>)
    requires forall ph :: ph in phases ==> ph.ToSubmit? || ph.Idle? || ph.ToCancel?
    ensures Sum(phases, InHand(Any())) == Sum(phases, Calls())
  {
    if phases != [] {
      AllCalls(phases[1..]);
      CountAny(Hand(phases[0]));
      assert phases[0] in phases;
    }
  }

  // ----- Only then

  /** How a process may stand that started as ph0: the other cancellers die at once, and who
      took n tasks before `llen` found one more is not the only one with tasks. */
  predicate Origin(ph0: Phase, ph: Phase, jobs: set<string>, n: nat) {
    match ph0
    case ToSubmit(_, _) => ph == ph0 || ph.Pushing? || ph.AllPushed?
    case Idle =>
      ph.Idle? || ph.Popped? || ph.Starting? || ph.Working? || ph.Recorded? || ph.Finishing? || ph.Left?
    case ToCancel(job) => if job in jobs then Cancelling(ph, n) else ph == ph0 || ph == Crashed([])
    case _ => false
  }

  predicate Cancelling(ph: Phase, n: nat) {
    match ph
    case ToCancel(_) => true
    case Draining(_, _) => true
    case Taking(_, tmp) => |tmp| < n
    case Crashed(tmp) => tmp == [] || |tmp| < n
    case Refilling(_, _) => true
    case Stopping(_) => true
    case Checking(_) => true
    case Marking(_) => true
    case Over => true
    case _ => false
  }

  lemma SubmitterOrigin(v: Redis, v': Redis, ph0: Phase, ph: Phase, ph': Phase, a: Action, jobs: set<string>, n: nat)
    requires Submitter(v, v', ph, ph', a) && Origin(ph0, ph, jobs, n)
    requires v.total.Keys <= jobs && (ph0.ToSubmit? ==> ph0.job in jobs)
    ensures Origin(ph0, ph', jobs, n) && v'.total.Keys <= jobs
  {
  }

  lemma WorkerOrigin(v: Redis, v': Redis, ph0: Phase, ph: Phase, ph': Phase, a: Action, jobs: set<string>, n: nat)
    requires Worker(v, v', ph, ph', a) && Origin(ph0, ph, jobs, n)
    requires v.total.Keys <= jobs
    ensures Origin(ph0, ph', jobs, n) && v'.total.Keys <= jobs
  {
  }

  lemma CancellerOrigin(v: Redis, v': Redis, ph0: Phase, ph: Phase, ph': Phase, a: Action, jobs: set<string>, n: nat)
    requires Canceller(v, v', ph, ph', a) && Origin(ph0, ph, jobs, n)
    requires v.total.Keys <= jobs && |v.queue| + |Hand(ph)| <= n
    ensures Origin(ph0, ph', jobs, n) && v'.total.Keys <= jobs
  {
  }

  predicate Origins(s0: State, s: State) {
    && |s.phases| == |s0.phases| && s.redis.total.Keys <= SubmittedJobs(s0)
    && forall p :: 0 <= p < |s.phases| ==> OriginAt(s0, s, p)
  }

  predicate OriginAt(s0: State, s: State, p: nat)
    requires p < |s.phases| == |s0.phases|
  {
    Origin(s0.phases[p], s.phases[p], SubmittedJobs(s0), Sum(s0.phases, Calls()))
  }

  lemma OriginsStep(s0: State, s: State, s': State, p: nat, a: Action)
    requires Origins(s0, s) && Next(s, s', p, a)
    requires |s.redis.queue| + |Hand(s.phases[p])| <= Sum(s0.phases, Calls())
    ensures Origins(s0, s')
  {
    var v, v', ph0, ph, ph' := s.redis, s'.redis, s0.phases[p], s.phases[p], s'.phases[p];
    var jobs, n := SubmittedJobs(s0), Sum(s0.phases, Calls());
    assert OriginAt(s0, s, p) && ph0 in s0.phases;
    if Submitter(v, v', ph, ph', a) {
      SubmitterOrigin(v, v', ph0, ph, ph', a, jobs, n);
    } else if Worker(v, v', ph, ph', a) {
      WorkerOrigin(v, v', ph0, ph, ph', a, jobs, n);
    } else {
      CancellerOrigin(v, v', ph0, ph, ph', a, jobs, n);
    }
    forall q | 0 <= q < |s'.phases|
      ensures OriginAt(s0, s', q)
    {
      assert q != p ==> OriginAt(s0, s, q);
    }
  }

  lemma FewInSight(run: seq<State>, trace: seq<Step>, i: nat, p: nat)
    requires IsRun(run, trace) && i < |run| && p < |run[i].phases|
    ensures |run[i].redis.queue| + |Hand(run[i].phases[p])| <= Sum(run[0].phases, Calls())
  {
    TaskConservation(run, trace, i, Any());
    AllCalls(run[0].phases);
    CountAny(run[i].redis.queue);
    CountAny(Hand(run[i].phases[p]));
    SumAtLeast(run[i].phases, InHand(Any()), p);
  }

  lemma OriginsInit(s0: State)
    requires Init(s0)
    ensures Origins(s0, s0)
  {
    forall p | 0 <= p < |s0.phases|
      ensures OriginAt(s0, s0, p)
    {
      assert s0.phases[p] in s0.phases;
    }
  }

  lemma {:induction false} OriginsRun(run: seq<State>, trace: seq<Step>, i: nat)
    requires IsRun(run, trace) && i < |run|
    ensures Origins(run[0], run[i])
  {
    if i == 0 {
      OriginsInit(run[0]);
    } else {
      OriginsRun(run, trace, i - 1);
      OriginsNext(run, trace, i - 1, i);
    }
  }

  lemma OriginsNext(run: seq<State>, trace: seq<Step>, m: nat, i: nat)
    requires IsRun(run, trace) && m + 1 == i < |run| && Origins(run[0], run[m])
    ensures Origins(run[0], run[i])
  {
    var step := trace[m];
    assert Next(run[m], run[m + 1], step.p, step.a);
    FewInSight(run, trace, m, step.p);
    OriginsStep(run[0], run[m], run[i], step.p, step.a);
  }

  /** Canceller c has not died, and will not when it pops next. */
  predicate Safe(s: State, c: nat) {
    && c < |s.phases|
    && (s.phases[c].Taking? ==> s.redis.queue != [])
    && (s.phases[c].Crashed? ==> s.phases[c].tmp == [])
  }

  lemma SafeStep(s0: State, s: State, s': State, c: nat, p: nat, a: Action)
    requires Origins(s0, s) && Safe(s, c) && Next(s, s', p, a)
    requires p != c ==> !CanPop(s0.phases[p], SubmittedJobs(s0))
    ensures Safe(s', c)
  {
    var v, v', ph, ph' := s.redis, s'.redis, s.phases[p], s'.phases[p];
    var jobs, n := SubmittedJobs(s0), Sum(s0.phases, Calls());
    assert OriginAt(s0, s, p);
    if Submitter(v, v', ph, ph', a) {
      SubmitterSafe(v, v', ph, ph', a);
    } else if Worker(v, v', ph, ph', a) {
      WorkerSafe(v, v', s0.phases[p], ph, ph', a, jobs, n);
    } else {
      CancellerSafe(v, v', s0.phases[p], ph, ph', a, jobs, n);
    }
  }

  lemma SubmitterSafe(v: Redis, v': Redis, ph: Phase, ph': Phase, a: Action)
    requires Submitter(v, v', ph, ph', a)
    ensures (v.queue != [] ==> v'.queue != []) && !ph'.Taking? && !ph'.Crashed?
  {
  }

  lemma WorkerSafe(v: Redis, v': Redis, ph0: Phase, ph: Phase, ph': Phase, a: Action, jobs: set<string>, n: nat)
    requires Worker(v, v', ph, ph', a) && Origin(ph0, ph, jobs, n)
    ensures CanPop(ph0, jobs) && !ph'.Taking? && !ph'.Crashed?
  {
  }

  lemma CancellerSafe(v: Redis, v': Redis, ph0: Phase, ph: Phase, ph': Phase, a: Action, jobs: set<string>, n: nat)
    requires Canceller(v, v', ph, ph', a) && Origin(ph0, ph, jobs, n) && v.total.Keys <= jobs
    ensures v.queue != [] && !CanPop(ph0, jobs) ==> v'.queue != []
    ensures (ph.Taking? ==> v.queue != []) ==> (ph'.Taking? ==> v'.queue != []) && (ph'.Crashed? ==> ph'.tmp == [])
  {
  }

  /** A canceller loses nothing while nobody else takes tasks off the queue. */
  lemma {:induction false} NobodyElseLosesNothing(run: seq<State>, trace: seq<Step>, i: nat, c: nat)
    requires IsRun(run, trace) && i < |run| && c < |run[0].phases|
    requires forall q :: 0 <= q < |run[0].phases| && q != c ==> !CanPop(run[0].phases[q], SubmittedJobs(run[0]))
    ensures Safe(run[i], c)
  {
    OriginsRun(run, trace, i);
    if i == 0 {
      assert run[0].phases[c] in run[0].phases;
    } else {
      var m := i - 1;
      NobodyElseLosesNothing(run, trace, m, c);
      OriginsRun(run, trace, m);
      assert Next(run[m], run[m + 1], trace[m].p, trace[m].a);
      SafeStep(run[0], run[m], run[m + 1], c, trace[m].p, trace[m].a);
    }
  }

  lemma TaskSubmitted(run: seq<State>, trace: seq<Step>, i: nat, p: nat, t: Task)
    requires IsRun(run, trace) && i < |run| && p < |run[i].phases| && t in Hand(run[i].phases[p])
    ensures exists ph :: ph in run[0].phases && ph.ToSubmit? && ph.calls != [] && ph.job == t.job
  {
    var mine := Exactly(t);
    TaskConservation(run, trace, i, mine);
    CountNone(Hand(run[i].phases[p]), mine);
    SumAtLeast(run[i].phases, InHand(mine), p);
    SumPositive(run[0].phases, InHand(mine));
    var q :| 0 <= q < |run[0].phases| && InHand(mine)(run[0].phases[q]) > 0;
    assert run[0].phases[q] in run[0].phases;
    SubmitterOf(run[0].phases[q], t);
  }

  lemma SubmitterOf(ph: Phase, t: Task)
    requires ph.ToSubmit? || ph.Idle? || ph.ToCancel?
    requires Count(Hand(ph), Exactly(t)) > 0
    ensures ph.ToSubmit? && ph.calls != [] && ph.job == t.job
  {
    CountNone(Hand(ph), Exactly(t));
  }

  lemma LosesOnlyThen(run: seq<State>, trace: seq<Step>, i: nat)
    requires IsRun(run, trace) && i < |run| && LostOther(run[0], run[i])
    ensures CanLose(run[0])
  {
    var s0, s := run[0], run[i];
    var p: nat, t: Task :| LostBy(s0, s, p, t);
    OriginsRun(run, trace, i);
    assert OriginAt(s0, s, p) && s0.phases[p] in s0.phases;
    TaskSubmitted(run, trace, i, p, t);
    if forall q :: 0 <= q < |s0.phases| && q != p ==> !CanPop(s0.phases[q], SubmittedJobs(s0)) {
      NobodyElseLosesNothing(run, trace, i, p);
    } else {
      var q :| 0 <= q < |s0.phases| && q != p && CanPop(s0.phases[q], SubmittedJobs(s0));
      assert Contend(s0, p, q);
    }
  }

  // ----- And always then

  ghost predicate Path(s: State, s': State, run: seq<State>, trace: seq<Step>) {
    && |run| == |trace| + 1 && run[0] == s && run[|trace|] == s'
    && forall i :: 0 <= i < |trace| ==> Next(run[i], run[i + 1], trace[i].p, trace[i].a)
  }

  ghost predicate Reaches(s: State, s': State) {
    exists run, trace :: Path(s, s', run, trace)
  }

  lemma Stays(s: State)
    ensures Reaches(s, s)
  {
    assert Path(s, s, [s], []);
  }

  function After(s: State, p: nat, ph: Phase, v: Redis): State
    requires p < |s.phases|
  {
    State(v, s.phases[p := ph])
  }

  lemma Then(s0: State, s: State, p: nat, ph: Phase, v: Redis, a: Action)
    requires Reaches(s0, s) && p < |s.phases| && Command(s.redis, v, s.phases[p], ph, a)
    ensures Reaches(s0, After(s, p, ph, v))
  {
    var run, trace :| Path(s0, s, run, trace);
    var s' := After(s, p, ph, v);
    assert Next(s, s', p, a);
    PathExtends(s0, s, s', run, trace, Step(p, a));
  }

  lemma PathExtends(s0: State, s: State, s': State, run: seq<State>, trace: seq<Step>, step: Step)
    requires Path(s0, s, run, trace) && Next(s, s', step.p, step.a)
    ensures Path(s0, s', run + [s'], trace + [step])
  {
  }

  /** The queue was added to, at its head. */
  predicate Grown(q: seq<Task>, q': seq<Task>) {
    |q| <= |q'| && q'[|q'| - |q|..] == q
  }

  lemma GrownTwice(q: seq<Task>, q': seq<Task>, q'': seq<Task>)
    requires Grown(q, q') && Grown(q', q'')
    ensures Grown(q, q'')
  {
    assert q''[|q''| - |q'|..][|q'| - |q|..] == q''[|q''| - |q|..];
  }

  predicate OnlyQueue(v: Redis, v': Redis) {
    v' == v.(queue := v'.queue) && Grown(v.queue, v'.queue)
  }

  lemma {:induction false} PushAll(s0: State, s: State, p: nat) returns (s': State)
    requires Reaches(s0, s) && p < |s.phases| && s.phases[p].Pushing?
    ensures Reaches(s0, s') && s'.phases == s.phases[p := Pushing(s.phases[p].job, [])]
    ensures OnlyQueue(s.redis, s'.redis)
    ensures s.phases[p].calls != [] ==>
              Grown([Task(s.phases[p].job, s.phases[p].calls[0])] + s.redis.queue, s'.redis.queue)
    decreases |s.phases[p].calls|
  {
    var job, calls := s.phases[p].job, s.phases[p].calls;
    if calls == [] {
      s' := s;
    } else {
      var v := s.redis.(queue := [Task(job, calls[0])] + s.redis.queue);
      var m := After(s, p, Pushing(job, calls[1..]), v);
      Then(s0, s, p, Pushing(job, calls[1..]), v, Lpush);
      s' := PushAll(s0, m, p);
      assert Grown(s.redis.queue, v.queue);
      GrownTwice(s.redis.queue, v.queue, s'.redis.queue);
    }
  }

  lemma SubmitOne(s0: State, s: State, p: nat) returns (s': State)
    requires Reaches(s0, s) && p < |s.phases| && s.phases[p].ToSubmit?
    ensures Reaches(s0, s') && s'.phases == s.phases[p := Pushing(s.phases[p].job, [])]
    ensures s'.redis.total.Keys == s.redis.total.Keys + {s.phases[p].job}
    ensures s'.redis.recorded == s.redis.recorded && s'.redis.dropped == s.redis.dropped
    ensures Grown(s.redis.queue, s'.redis.queue)
    ensures s.phases[p].calls != [] ==>
              Grown([Task(s.phases[p].job, s.phases[p].calls[0])] + s.redis.queue, s'.redis.queue)
  {
    var job, calls := s.phases[p].job, s.phases[p].calls;
    var v := s.redis.(status := s.redis.status[job := Submitted], total := s.redis.total[job := |calls|]);
    var m := After(s, p, Pushing(job, calls), v);
    Then(s0, s, p, Pushing(job, calls), v, HsetJob);
    s' := PushAll(s0, m, p);
    assert m.phases[p := Pushing(job, [])] == s.phases[p := Pushing(job, [])];
  }

  /** A process as it stands once everything is submitted. */
  predicate ThroughSubmitting(ph: Phase, ph': Phase, v': Redis) {
    if ph.ToSubmit? then ph' == Pushing(ph.job, []) && ph.job in v'.total else ph' == ph
  }

  /** The processes from i on are through with submitting. */
  predicate SubmittedFrom(s: State, s': State, i: nat) {
    && |s'.phases| == |s.phases|
    && (forall k :: 0 <= k < i && k < |s.phases| ==> s'.phases[k] == s.phases[k])
    && (forall k :: i <= k < |s.phases| ==> ThroughSubmitting(s.phases[k], s'.phases[k], s'.redis))
    && s.redis.total.Keys <= s'.redis.total.Keys
    && s'.redis.recorded == s.redis.recorded && s'.redis.dropped == s.redis.dropped
    && Grown(s.redis.queue, s'.redis.queue)
  }

  lemma {:induction false} SubmitFrom(s0: State, s: State, i: nat) returns (s': State)
    requires Reaches(s0, s) && i <= |s.phases|
    ensures Reaches(s0, s') && SubmittedFrom(s, s', i)
    decreases |s.phases| - i
  {
    if i == |s.phases| {
      s' := s;
    } else if s.phases[i].ToSubmit? {
      var m := SubmitOne(s0, s, i);
      s' := SubmitFrom(s0, m, i + 1);
      GrownTwice(s.redis.queue, m.redis.queue, s'.redis.queue);
    } else {
      s' := SubmitFrom(s0, s, i + 1);
    }
  }

  lemma {:induction false} EmptyHands(phases: seq<Phase>)
    requires forall ph :: ph in phases ==> Hand(ph) == []
    ensures Sum(phases, InHand(Any())) == 0
  {
    if phases != [] {
      EmptyHands(phases[1..]);
      assert phases[0] in phases;
    }
  }

  /** Everything is submitted, and the tail of the queue is the first task of process a. */
  predicate AllSubmitted(s0: State, s: State, a: nat)
    requires a < |s0.phases| && s0.phases[a].ToSubmit? && s0.phases[a].calls != []
  {
    && |s.phases| == |s0.phases|
    && (forall k :: 0 <= k < |s.phases| && !s0.phases[k].ToSubmit? ==> s.phases[k] == s0.phases[k])
    && (forall ph :: ph in s0.phases && ph.ToSubmit? ==> ph.job in s.redis.total)
    && |s.redis.queue| == Sum(s0.phases, Calls()) > 0
    && s.redis.queue[|s.redis.queue| - 1] == Task(s0.phases[a].job, s0.phases[a].calls[0])
  }

  lemma SubmitAll(s0: State, a: nat) returns (s: State)
    requires Init(s0) && a < |s0.phases| && s0.phases[a].ToSubmit? && s0.phases[a].calls != []
    ensures Reaches(s0, s) && AllSubmitted(s0, s, a)
  {
    Stays(s0);
    var m := SubmitOne(s0, s0, a);
    s := SubmitFrom(s0, m, 0);
    var t := Task(s0.phases[a].job, s0.phases[a].calls[0]);
    assert [t] + s0.redis.queue == [t];
    GrownTwice([t], m.redis.queue, s.redis.queue);
    forall k | 0 <= k < |s.phases|
      ensures Hand(s.phases[k]) == []
      ensures s0.phases[k].ToSubmit? ==> s0.phases[k].job in s.redis.total
      ensures !s0.phases[k].ToSubmit? ==> s.phases[k] == s0.phases[k]
    {
      assert ThroughSubmitting(m.phases[k], s.phases[k], s.redis) && s0.phases[k] in s0.phases;
    }
    forall ph | ph in s0.phases && ph.ToSubmit?
      ensures ph.job in s.redis.total
    {
      var k :| 0 <= k < |s0.phases| && s0.phases[k] == ph;
    }
    AllQueued(s0, s);
    assert s.redis.queue[|s.redis.queue| - 1..] == [t];
  }

  lemma AllQueued(s0: State, s: State)
    requires Init(s0) && Reaches(s0, s) && s.redis.recorded == [] && s.redis.dropped == []
    requires forall k :: 0 <= k < |s.phases| ==> Hand(s.phases[k]) == []
    ensures |s.redis.queue| == Sum(s0.phases, Calls())
  {
    var run, trace :| Path(s0, s, run, trace);
    assert IsRun(run, trace);
    TaskConservation(run, trace, |trace|, Any());
    AllCalls(s0.phases);
    EmptyHands(s.phases);
    CountAny(s.redis.queue);
  }

  /** No process but p stands elsewhere than before. */
  predicate OnlyMoves(s: State, s': State, p: nat) {
    p < |s.phases| == |s'.phases| && s'.phases == s.phases[p := s'.phases[p]]
  }

  /** What a canceller takes off the queue next; tasks of other jobs are kept. */
  lemma TakeOne(s0: State, s: State, c: nat) returns (s': State)
    requires Reaches(s0, s) && c < |s.phases| && s.phases[c].Draining? && s.redis.queue != []
    ensures Reaches(s0, s') && OnlyMoves(s, s', c) && s'.phases[c].Draining?
    ensures s'.phases[c].job == s.phases[c].job && s.phases[c].tmp <= s'.phases[c].tmp
    ensures var t := s.redis.queue[|s.redis.queue| - 1];
            t.job != s.phases[c].job ==> t in s'.phases[c].tmp
    ensures s'.redis.queue == s.redis.queue[..|s.redis.queue| - 1] && s'.redis.total == s.redis.total
  {
    var job, tmp, v := s.phases[c].job, s.phases[c].tmp, s.redis;
    var rest, t := v.queue[..|v.queue| - 1], v.queue[|v.queue| - 1];
    var m := After(s, c, Taking(job, tmp), v);
    Then(s0, s, c, Taking(job, tmp), v, Llen);
    if t.job != job {
      s' := After(m, c, Draining(job, tmp + [t]), v.(queue := rest));
      Then(s0, m, c, Draining(job, tmp + [t]), v.(queue := rest), Rpop);
    } else {
      s' := After(m, c, Draining(job, tmp), v.(queue := rest, dropped := v.dropped + [t]));
      Then(s0, m, c, Draining(job, tmp), v.(queue := rest, dropped := v.dropped + [t]), Rpop);
    }
  }

  /** The canceller drains the queue down to one task. */
  lemma {:induction false} DrainToOne(s0: State, s: State, c: nat) returns (s': State)
    requires Reaches(s0, s) && c < |s.phases| && s.phases[c].Draining? && s.redis.queue != []
    ensures Reaches(s0, s') && OnlyMoves(s, s', c) && s'.phases[c].Draining?
    ensures s'.phases[c].job == s.phases[c].job && s.phases[c].tmp <= s'.phases[c].tmp
    ensures |s'.redis.queue| == 1 && s'.redis.total == s.redis.total
    decreases |s.redis.queue|
  {
    if |s.redis.queue| == 1 {
      s' := s;
    } else {
      var m := TakeOne(s0, s, c);
      s' := DrainToOne(s0, m, c);
    }
  }

  /** Any process that takes tasks off the queue takes the last one. */
  lemma TakeLast(s0: State, s: State, q: nat) returns (s': State)
    requires Reaches(s0, s) && q < |s.phases| && CanPop(s.phases[q], s.redis.total.Keys) && |s.redis.queue| == 1
    ensures Reaches(s0, s') && OnlyMoves(s, s', q) && s'.redis.queue == []
  {
    var v := s.redis;
    if s.phases[q].Idle? {
      s' := After(s, q, Popped(v.queue[0]), v.(queue := []));
      assert v.queue[..0] == [];
      Then(s0, s, q, Popped(v.queue[0]), v.(queue := []), Pop);
    } else {
      var m := After(s, q, Draining(s.phases[q].job, []), v);
      Then(s0, s, q, Draining(s.phases[q].job, []), v, GetQueue);
      s' := TakeOne(s0, m, q);
    }
  }

  /** `llen` sees a task that somebody else takes before `rpop`: cancelling a job dies with
      the tasks of others in hand. */
  lemma CancelCanLoseOthers(s0: State)
    requires Init(s0) && CanLose(s0)
    ensures exists s :: Reaches(s0, s) && LostOther(s0, s)
  {
    var c: nat, q: nat :| Contend(s0, c, q);
    var ph :| ph in s0.phases && ph.ToSubmit? && ph.calls != [] && ToCancel(ph.job) !in s0.phases;
    var a :| 0 <= a < |s0.phases| && s0.phases[a] == ph;
    var s := SubmitAll(s0, a);
    var end := DiesWith(s0, s, c, q, Task(ph.job, ph.calls[0]));
    assert LostBy(s0, end, c, Task(ph.job, ph.calls[0]));
  }

  lemma DiesWith(s0: State, s: State, c: nat, q: nat, t: Task) returns (end: State)
    requires Reaches(s0, s) && c < |s.phases| && q < |s.phases| && c != q
    requires s.phases[c].ToCancel? && CanPop(s.phases[c], s.redis.total.Keys) && CanPop(s.phases[q], s.redis.total.Keys)
    requires |s.redis.queue| >= 2 && s.redis.queue[|s.redis.queue| - 1] == t
    requires t.job != s.phases[c].job
    ensures Reaches(s0, end) && DiedWith(end, c, t)
  {
    var job := s.phases[c].job;
    var m := After(s, c, Draining(job, []), s.redis);
    Then(s0, s, c, Draining(job, []), s.redis, GetQueue);
    m := TakeOne(s0, m, c);
    m := DrainToOne(s0, m, c);
    assert m.phases[q] == s.phases[q];
    end := PopsNothing(s0, m, c, q, t);
  }

  lemma PopsNothing(s0: State, s: State, c: nat, q: nat, t: Task) returns (end: State)
    requires Reaches(s0, s) && c < |s.phases| && q < |s.phases| && c != q
    requires s.phases[c].Draining? && t in s.phases[c].tmp && CanPop(s.phases[q], s.redis.total.Keys)
    requires |s.redis.queue| == 1
    ensures Reaches(s0, end) && DiedWith(end, c, t)
  {
    var job, tmp := s.phases[c].job, s.phases[c].tmp;
    var m := After(s, c, Taking(job, tmp), s.redis);
    Then(s0, s, c, Taking(job, tmp), s.redis, Llen);
    m := TakeLast(s0, m, q);
    end := After(m, c, Crashed(tmp), m.redis);
    Then(s0, m, c, Crashed(tmp), m.redis, Rpop);
  }

  /** Exactly when cancellations can lose the task of a job nobody cancels. */
  lemma LosesOthersIff(s0: State)
    requires Init(s0)
    ensures (exists s :: Reaches(s0, s) && LostOther(s0, s)) <==> CanLose(s0)
  {
    if s :| Reaches(s0, s) && LostOther(s0, s) {
      var run, trace :| Path(s0, s, run, trace);
      assert IsRun(run, trace);
      LosesOnlyThen(run, trace, |trace|);
    }
    if CanLose(s0) {
      CancelCanLoseOthers(s0);
    }
  }
}

/** Which jobs the scheduler can strand (lithops/invokers.py, FaaSInvoker): for every list of
    jobs, whether some run that invokes them ends with a chunk left in the queue, and whether
    all runs do. */
module StrandingJobs {
  import opened Chunks
  import opened Scheduler
  import opened Stranding

  function TotalChunks(jobs: seq<Job>): nat {
    if jobs == [] then 0 else TotalChunks(jobs[..|jobs| - 1]) + |AllChunks(jobs[|jobs| - 1])|
  }

  /** The workers that the last job takes at least: as many as it has chunks, if there are
      so many. */
  function LastWorkers(max: nat, jobs: seq<Job>): nat {
    if jobs == [] then 0 else Min(max, |AllChunks(jobs[|jobs| - 1])|)
  }

  /** Enough partial chunks to use up the tokens that are left after the last job, and one
      more chunk. */
  predicate CanStrand(max: nat, jobs: seq<Job>) {
    var tokens := ASYNC_INVOKERS + LastWorkers(max, jobs);
    PartialJobs(jobs) >= tokens && TotalChunks(jobs) > tokens
  }

  // ----- Chunks as a multiset

  function IssuedSet(jobs: seq<Job>): multiset<Chunk> {
    if jobs == [] then multiset{} else IssuedSet(jobs[..|jobs| - 1]) + multiset(AllChunks(jobs[|jobs| - 1]))
  }

  lemma {:induction false} CountIs(chunks: seq<Chunk>, c: Chunk)
    ensures Count(chunks, c) == multiset(chunks)[c]
  {
    if chunks != [] {
      CountIs(chunks[1..], c);
      assert chunks == [chunks[0]] + chunks[1..];
    }
  }

  lemma {:induction false} IssuedSetIs(jobs: seq<Job>)
    ensures |IssuedSet(jobs)| == TotalChunks(jobs)
    ensures forall c :: IssuedSet(jobs)[c] == Issued(jobs, c)
  {
    if jobs != [] {
      IssuedSetIs(jobs[..|jobs| - 1]);
      forall c
        ensures IssuedSet(jobs)[c] == Issued(jobs, c)
      {
        CountIs(AllChunks(jobs[|jobs| - 1]), c);
      }
    }
  }

  lemma SubsetSize(a: multiset<Chunk>, b: multiset<Chunk>)
    requires forall c :: a[c] <= b[c]
    ensures |a| <= |b|
  {
    assert b == a + (b - a);
  }

  /** What is in the queue or runs has been handed out. */
  lemma FewChunks(s: State)
    requires ChunksConserved(s)
    ensures |s.active| + |s.pending| <= TotalChunks(s.jobs)
  {
    var m := s.active + multiset(s.pending);
    IssuedSetIs(s.jobs);
    forall c
      ensures m[c] <= IssuedSet(s.jobs)[c]
    {
      CountIs(s.pending, c);
      assert Places(s, c) == Issued(s.jobs, c);
    }
    SubsetSize(m, IssuedSet(s.jobs));
  }

  // ----- Only then

  /** A job takes the free workers, or as many as it has chunks. */
  lemma DirectWorkers(max: nat, running: int, job: Job)
    requires 0 <= running <= max
    ensures CeilDiv(DirectCalls(max, running, job), job.chunksize) == Min(max - running, |AllChunks(job)|)
  {
    var free, n, total := max - running, job.chunksize, job.totalCalls;
    ChunkCount(Range(total), n);
    CeilDivIsLeast(total, n, free);
    CeilDivIsLeast(free * n, n, free);
    if free > 0 {
      CeilDivIsLeast(free * n, n, free - 1);
      Distribute(free, -1, n);
    }
  }

  predicate LastTaken(max: nat, s: State) {
    s.user.Ready? || s.user.Dispatching? ==> s.running >= LastWorkers(max, s.jobs)
  }

  lemma LastTakenStep(max: nat, s: State, s': State, e: Event)
    requires Shape(max, s) && LastTaken(max, s) && Next(max, s, s', e)
    ensures LastTaken(max, s')
  {
    if UserStep(max, s, s', e) && s.user.Deciding? {
      DirectWorkers(max, s.running, s.user.job);
      assert s'.jobs[|s'.jobs| - 1] == s.user.job;
    }
  }

  lemma {:induction false} LastTakenRun(max: nat, run: seq<State>, trace: seq<Event>, i: nat)
    requires IsRun(max, run, trace) && i < |run|
    ensures LastTaken(max, run[i])
  {
    if i > 0 {
      var m := i - 1;
      LastTakenRun(max, run, trace, m);
      InvRun(max, run, trace, m);
      assert Next(max, run[m], run[m + 1], trace[m]);
      LastTakenStep(max, run[m], run[m + 1], trace[m]);
    }
  }

  /** In every run: a chunk that is stuck in the queue means that the jobs can strand one. */
  lemma StrandsOnlyThen(max: nat, run: seq<State>, trace: seq<Event>, i: nat)
    requires IsRun(max, run, trace) && i < |run| && Stuck(max, run[i]) && run[i].pending != []
    ensures CanStrand(max, run[i].jobs)
  {
    StuckIff(max, run, trace, i);
    RunningPartial(max, run, trace, i);
    LastTakenRun(max, run, trace, i);
    InvRun(max, run, trace, i);
    FewChunks(run[i]);
  }

  // ----- Steps of a run

  predicate AllWant(invokers: seq<Invoker>, v: Invoker) {
    forall i :: 0 <= i < |invokers| ==> invokers[i] == v
  }

  /** The backend refuses chunk c, and it goes back to the end of the queue. */
  lemma Bounce(max: nat, s0: State, s: State, c: Chunk) returns (s': State)
    requires Reaches(max, s0, s) && c in s.invoking
    ensures Reaches(max, s0, s')
    ensures s' == s.(invoking := s.invoking - multiset{c}, pending := s.pending + [c], tokens := s.tokens + 1)
  {
    var m := s.(invoking := s.invoking - multiset{c}, refused := s.refused + multiset{c});
    assert BackendStep(s, m, Refuse(c));
    Then(max, s0, s, m, Refuse(c));
    Requeues(max, m, c);
    Then(max, s0, m, Requeued(m, c), Requeue(c));
    Returns(max, Requeued(m, c));
    s' := Returned(Requeued(m, c));
    Then(max, s0, Requeued(m, c), s', ReturnToken);
    assert s.refused + multiset{c} - multiset{c} == s.refused;
  }

  lemma {:induction false} BounceAll(max: nat, s0: State, s: State) returns (s': State)
    requires Reaches(max, s0, s)
    ensures Reaches(max, s0, s')
    ensures s' == s.(invoking := multiset{}, pending := s'.pending, tokens := s'.tokens)
    decreases |s.invoking|
  {
    if s.invoking == multiset{} {
      s' := s;
    } else {
      var c :| c in s.invoking;
      var m := Bounce(max, s0, s, c);
      s' := BounceAll(max, s0, m);
    }
  }

  /** Invoker i, which has a token, takes the first chunk of the queue and submits it. */
  lemma Send(max: nat, s0: State, s: State, i: nat) returns (s': State)
    requires Reaches(max, s0, s) && i < |s.invokers| && s.invokers[i].WantChunk? && s.pending != []
    ensures Reaches(max, s0, s')
    ensures s' == s.(pending := s.pending[1..], invokers := s.invokers[i := WantToken],
                     invoking := s.invoking + multiset{s.pending[0]})
  {
    var m := ChunkTaken(s, i);
    assert InvokerStep(s, m, TakeChunk(i));
    Then(max, s0, s, m, TakeChunk(i));
    s' := Submitted(m, i);
    assert InvokerStep(m, s', Submit(i));
    Then(max, s0, m, s', Submit(i));
    assert s.invokers[i := HasChunk(s.pending[0])][i := WantToken] == s.invokers[i := WantToken];
  }

  /** The first chunk of the queue goes to the backend. */
  lemma SendFirst(max: nat, s0: State, s: State) returns (s': State)
    requires Reaches(max, s0, s) && s.invokers != [] && AllWant(s.invokers, WantToken)
    requires s.tokens > 0 && s.pending != []
    ensures Reaches(max, s0, s')
    ensures s' == s.(tokens := s.tokens - 1, pending := s.pending[1..],
                     invoking := s.invoking + multiset{s.pending[0]})
  {
    var m := TokenTaken(s, 0);
    assert InvokerStep(s, m, TakeToken(0));
    Then(max, s0, s, m, TakeToken(0));
    s' := Send(max, s0, m, 0);
    assert s.invokers[0 := WantChunk][0 := WantToken] == s.invokers;
  }

  /** The first chunk of the queue is accepted. */
  lemma Keep(max: nat, s0: State, s: State) returns (s': State)
    requires Reaches(max, s0, s) && s.invokers != [] && AllWant(s.invokers, WantToken)
    requires s.tokens > 0 && s.pending != []
    ensures Reaches(max, s0, s')
    ensures s' == s.(tokens := s.tokens - 1, pending := s.pending[1..], active := s.active + multiset{s.pending[0]})
  {
    var c := s.pending[0];
    var m := SendFirst(max, s0, s);
    Accepts(max, m, c);
    s' := Accepted(m, c);
    Then(max, s0, m, s', Accept(c));
    assert s.invoking + multiset{c} - multiset{c} == s.invoking;
  }

  /** The queue turned so that chunk k comes first: those before it are refused. */
  lemma {:induction false} TurnTo(max: nat, s0: State, s: State, k: nat) returns (s': State)
    requires Reaches(max, s0, s) && s.invokers != [] && AllWant(s.invokers, WantToken)
    requires s.tokens > 0 && k < |s.pending|
    ensures Reaches(max, s0, s') && s' == s.(pending := s.pending[k..] + s.pending[..k])
    decreases k
  {
    if k == 0 {
      s' := s;
      assert s.pending[0..] + s.pending[..0] == s.pending;
    } else {
      var c, q := s.pending[0], s.pending;
      var m := SendFirst(max, s0, s);
      m := Bounce(max, s0, m, c);
      assert s.invoking + multiset{c} - multiset{c} == s.invoking;
      assert m == s.(pending := q[1..] + [c]);
      s' := TurnTo(max, s0, m, k - 1);
      TurnedFurther(q, k);
    }
  }

  lemma TurnedFurther(q: seq<Chunk>, k: nat)
    requires 0 < k < |q|
    ensures (q[1..] + [q[0]])[k - 1..] + (q[1..] + [q[0]])[..k - 1] == q[k..] + q[..k]
  {
    var once := q[1..] + [q[0]];
    assert once[k - 1..] == q[k..] + [q[0]];
    assert once[..k - 1] == q[1..k];
    assert [q[0]] + q[1..k] == q[..k];
  }

  // ----- Invoking jobs while every worker is free again

  /** Nothing is on its way to the backend, runs or is done. */
  predicate Idle(s: State) {
    && s.invoking == multiset{} && s.refused == multiset{} && s.owing == 0
    && s.active == multiset{} && s.credited == multiset{}
    && AllWant(s.invokers, WantToken)
  }

  lemma {:induction false} LaunchAll(max: nat, s0: State, s: State, job: Job) returns (s': State)
    requires Init(s0) && Reaches(max, s0, s) && s.user == Launching(job) && Idle(s)
    ensures Reaches(max, s0, s') && s'.user == DrainTest(job) && Idle(s')
    ensures s'.jobs == s.jobs && s'.started == s.started && s'.running == s.running
    decreases 2 * ASYNC_INVOKERS - s.seeded - |s.invokers|
  {
    ReachedInv(max, s0, s);
    var m :=
      if s.seeded == |s.invokers| then s.(seeded := s.seeded + 1, tokens := s.tokens + 1)
      else s.(invokers := s.invokers + [WantToken],
              user := if |s.invokers| + 1 == ASYNC_INVOKERS then DrainTest(job) else s.user);
    assert UserStep(max, s, m, Launch);
    Then(max, s0, s, m, Launch);
    if m.user.Launching? {
      ReachedInv(max, s0, m);
      s' := LaunchAll(max, s0, m, job);
    } else {
      s' := m;
    }
  }

  /** The user thread comes to the loop that drains tokens. */
  lemma Enter(max: nat, s0: State, s: State, job: Job) returns (s': State)
    requires Init(s0) && Reaches(max, s0, s) && s.user.Ready? && (s.started || Idle(s))
    ensures Reaches(max, s0, s') && s'.user == DrainTest(job) && s'.started
    ensures if s.started then s' == s.(user := DrainTest(job)) else Idle(s') && s'.jobs == s.jobs && s'.running == 0
  {
    if s.started {
      s' := s.(user := DrainTest(job));
      assert UserStep(max, s, s', Invoke(job));
      Then(max, s0, s, s', Invoke(job));
    } else {
      var l := s.(started := true, running := 0, user := Launching(job));
      assert UserStep(max, s, l, Invoke(job));
      Then(max, s0, s, l, Invoke(job));
      s' := LaunchAll(max, s0, l, job);
    }
  }

  lemma IdleTokens(max: nat, s: State)
    requires Inv(max, s) && Idle(s) && Direct(s.user) == []
    ensures s.tokens == s.seeded + s.running
  {
    HeldZero(s.invokers);
  }

  lemma {:induction false} DrainAll(max: nat, s0: State, s: State, job: Job) returns (s': State)
    requires Init(s0) && Reaches(max, s0, s) && s.user == DrainTest(job) && Idle(s)
    ensures Reaches(max, s0, s') && s'.user == Deciding(job) && Idle(s') && s'.running == 0
    ensures s'.jobs == s.jobs && s'.started == s.started
    decreases if s.running > 0 then s.running else 0
  {
    ReachedInv(max, s0, s);
    IdleTokens(max, s);
    if s.running > 0 {
      var m := s.(user := DrainGet(job));
      var m' := s.(tokens := s.tokens - 1, running := s.running - 1,
                   user := if s.running - 1 == 0 then Deciding(job) else DrainTest(job));
      assert UserStep(max, s, m, Drain) && UserStep(max, m, m', Drain);
      Then(max, s0, s, m, Drain);
      Then(max, s0, m, m', Drain);
      if m'.user.Deciding? {
        s' := m';
      } else {
        s' := DrainAll(max, s0, m', job);
      }
    } else {
      s' := s.(user := Deciding(job));
      assert UserStep(max, s, s', Drain);
      Then(max, s0, s, s', Drain);
    }
  }

  lemma {:induction false} DispatchAll(max: nat, s0: State, s: State) returns (s': State)
    requires Reaches(max, s0, s) && s.user.Dispatching?
    ensures Reaches(max, s0, s')
    ensures s' == s.(user := Ready, invoking := s'.invoking, pending := s'.pending)
    decreases |s.user.direct| + |s.user.queued|
  {
    var m := Dispatched(s);
    assert UserStep(max, s, m, Dispatch);
    Then(max, s0, s, m, Dispatch);
    if m.user.Ready? {
      s' := m;
    } else {
      s' := DispatchAll(max, s0, m);
    }
  }

  /** The job takes its workers, and its chunks go to the backend or into the queue. */
  lemma Decides(max: nat, s0: State, s: State, job: Job) returns (s': State)
    requires Init(s0) && Reaches(max, s0, s) && s.user == Deciding(job)
    ensures Reaches(max, s0, s') && s'.jobs == s.jobs + [job]
    ensures s'.running == s.running + Min(max - s.running, |AllChunks(job)|)
    ensures s' == s.(user := Ready, invoking := s'.invoking, pending := s'.pending,
                     running := s'.running, jobs := s'.jobs)
  {
    ReachedInv(max, s0, s);
    DirectWorkers(max, s.running, job);
    var d := Decided(max, s, job);
    Then(max, s0, s, d, Decide);
    s' := DispatchAll(max, s0, d);
  }

  lemma InvokeIdle(max: nat, s0: State, s: State, job: Job) returns (s': State)
    requires Init(s0) && Reaches(max, s0, s) && s.user.Ready? && Idle(s)
    ensures Reaches(max, s0, s') && s'.user.Ready? && Idle(s') && s'.started
    ensures s'.jobs == s.jobs + [job] && s'.running == Min(max, |AllChunks(job)|)
  {
    var m := Enter(max, s0, s, job);
    m := DrainAll(max, s0, m, job);
    m := Decides(max, s0, m, job);
    s' := BounceAll(max, s0, m);
  }

  lemma {:induction false} InvokeAllIdle(max: nat, s0: State, jobs: seq<Job>) returns (s: State)
    requires Init(s0)
    ensures Reaches(max, s0, s) && s.user.Ready? && Idle(s) && s.jobs == jobs && (s.started <==> jobs != [])
    ensures s.running == LastWorkers(max, jobs)
  {
    if jobs == [] {
      Stays(max, s0);
      s := s0;
    } else {
      var m := InvokeAllIdle(max, s0, jobs[..|jobs| - 1]);
      s := InvokeIdle(max, s0, m, jobs[|jobs| - 1]);
      assert jobs[..|jobs| - 1] + [jobs[|jobs| - 1]] == jobs;
    }
  }

  // ----- Always then

  /** Only partial chunks run, and the rest is in the queue. */
  predicate Filling(s: State) {
    && s.user.Ready? && s.started && AllWant(s.invokers, WantToken)
    && s.invoking == multiset{} && s.refused == multiset{} && s.owing == 0 && s.credited == multiset{}
    && forall c :: c in s.active ==> Partial(c)
  }

  lemma FillingTokens(max: nat, s: State)
    requires Inv(max, s) && Filling(s)
    ensures |s.invokers| == ASYNC_INVOKERS && s.tokens + |s.active| == ASYNC_INVOKERS + s.running
    ensures forall c :: s.active[c] + Count(s.pending, c) == Issued(s.jobs, c)
  {
    HeldZero(s.invokers);
    forall c
      ensures s.active[c] + Count(s.pending, c) == Issued(s.jobs, c)
    {
      NoneCarried(s.invokers, c);
      assert Places(s, c) == Issued(s.jobs, c);
    }
  }

  /** While there is a token, a partial chunk waits for it. */
  lemma PartialWaits(max: nat, s: State) returns (k: nat)
    requires Inv(max, s) && Filling(s) && s.tokens > 0 && PartialJobs(s.jobs) >= ASYNC_INVOKERS + s.running
    ensures k < |s.pending| && Partial(s.pending[k])
  {
    FillingTokens(max, s);
    if forall k :: 0 <= k < |s.pending| ==> !Partial(s.pending[k]) {
      forall c | Partial(c)
        ensures s.active[c] >= Issued(s.jobs, c)
      {
        CountPositive(s.pending, c);
      }
      AtLeastPartialJobs(s.active, s.jobs);
      assert false;
    } else {
      k :| 0 <= k < |s.pending| && Partial(s.pending[k]);
    }
  }

  /** Partial chunks are accepted until no token is left. */
  lemma {:induction false} Fill(max: nat, s0: State, s: State) returns (s': State)
    requires Init(s0) && Reaches(max, s0, s) && Filling(s)
    requires PartialJobs(s.jobs) >= ASYNC_INVOKERS + s.running
    ensures Reaches(max, s0, s') && Filling(s') && s'.tokens == 0
    ensures s'.jobs == s.jobs && s'.running == s.running
    decreases s.tokens
  {
    ReachedInv(max, s0, s);
    FillingTokens(max, s);
    if s.tokens == 0 {
      s' := s;
    } else {
      var k := PartialWaits(max, s);
      var m := TurnTo(max, s0, s, k);
      m := Keep(max, s0, m);
      s' := Fill(max, s0, m);
    }
  }

  lemma FilledStuck(max: nat, s: State)
    requires Inv(max, s) && Filling(s) && s.tokens == 0 && CanStrand(max, s.jobs)
    requires s.running == LastWorkers(max, s.jobs)
    ensures Stuck(max, s) && s.pending != []
  {
    FillingTokens(max, s);
    if s.pending == [] {
      IssuedSetIs(s.jobs);
      SubsetSize(IssuedSet(s.jobs), s.active);
    }
    StuckMeans(max, s);
    forall i | 0 <= i < |s.invokers|
      ensures !CanMove(s, i)
    {
    }
  }

  lemma StrandsThen(max: nat, s0: State, jobs: seq<Job>)
    requires Init(s0) && CanStrand(max, jobs)
    ensures exists s :: Reaches(max, s0, s) && s.jobs == jobs && Stuck(max, s) && s.pending != []
  {
    var m := InvokeAllIdle(max, s0, jobs);
    var s := Fill(max, s0, m);
    ReachedInv(max, s0, s);
    FilledStuck(max, s);
  }

  /** For every list of jobs and every number of workers: whether some run that invokes these
      jobs ends with a chunk left in the queue. */
  lemma CanStrandIff(max: nat, s0: State, jobs: seq<Job>)
    requires Init(s0)
    ensures (exists s :: Reaches(max, s0, s) && s.jobs == jobs && Stuck(max, s) && s.pending != []) <==>
              CanStrand(max, jobs)
  {
    if s :| Reaches(max, s0, s) && s.jobs == jobs && Stuck(max, s) && s.pending != [] {
      var run, trace :| Path(max, s0, s, run, trace);
      assert IsRun(max, run, trace);
      StrandsOnlyThen(max, run, trace, |trace|);
    }
    if CanStrand(max, jobs) {
      StrandsThen(max, s0, jobs);
    }
  }

  // ----- Invoking jobs while no token is free

  /** Every invoker thread holds a token and waits for a chunk; no token is in the queue. */
  predicate Busy(s: State) {
    && s.started && s.tokens == 0 && AllWant(s.invokers, WantChunk)
    && s.refused == multiset{} && s.owing == 0 && s.active == multiset{} && s.credited == multiset{}
  }

  lemma {:induction false} HeldAll(invokers: seq<Invoker>)
    requires forall i :: 0 <= i < |invokers| ==> !invokers[i].WantToken?
    ensures Held(invokers) == |invokers|
  {
    if invokers != [] {
      HeldAll(invokers[1..]);
    }
  }

  /** The invoker threads from i on take the tokens that are there. */
  lemma {:induction false} TakeTokens(max: nat, s0: State, s: State, i: nat) returns (s': State)
    requires Reaches(max, s0, s) && i <= |s.invokers| && s.tokens >= |s.invokers| - i
    requires forall j :: i <= j < |s.invokers| ==> s.invokers[j].WantToken?
    requires forall j :: 0 <= j < i ==> s.invokers[j].WantChunk?
    ensures Reaches(max, s0, s') && AllWant(s'.invokers, WantChunk)
    ensures s' == s.(tokens := s.tokens - (|s.invokers| - i), invokers := s'.invokers)
    decreases |s.invokers| - i
  {
    if i == |s.invokers| {
      s' := s;
    } else {
      var m := TokenTaken(s, i);
      assert InvokerStep(s, m, TakeToken(i));
      Then(max, s0, s, m, TakeToken(i));
      s' := TakeTokens(max, s0, m, i + 1);
    }
  }

  lemma EnterBusy(max: nat, s0: State, s: State, job: Job) returns (s': State)
    requires Init(s0) && Reaches(max, s0, s) && s.user.Ready?
    requires Busy(s) || (Idle(s) && !s.started && s.running == 0)
    ensures Reaches(max, s0, s') && Busy(s') && s'.user == DrainTest(job)
    ensures s'.jobs == s.jobs && s'.running == s.running
  {
    s' := Enter(max, s0, s, job);
    if !s.started {
      ReachedInv(max, s0, s');
      IdleTokens(max, s');
      s' := TakeTokens(max, s0, s', 0);
    }
  }

  lemma InvokeBusy(max: nat, s0: State, s: State, job: Job) returns (s': State)
    requires Init(s0) && Reaches(max, s0, s) && s.user.Ready?
    requires Busy(s) || (Idle(s) && !s.started && s.running == 0)
    ensures Reaches(max, s0, s') && Busy(s') && s'.user.Ready?
    ensures s'.jobs == s.jobs + [job] && s'.running == Min(max, s.running + |AllChunks(job)|)
  {
    ReachedInv(max, s0, s);
    var m := EnterBusy(max, s0, s, job);
    var d := m.(user := Deciding(job));
    assert UserStep(max, m, d, Drain);
    Then(max, s0, m, d, Drain);
    s' := Decides(max, s0, d, job);
  }

  /** All workers are taken that the jobs have chunks for. */
  lemma {:induction false} InvokeAllBusy(max: nat, s0: State, jobs: seq<Job>) returns (s: State)
    requires Init(s0)
    ensures Reaches(max, s0, s) && s.user.Ready? && s.jobs == jobs
    ensures if jobs == [] then s == s0 else Busy(s)
    ensures s.running == Min(max, TotalChunks(jobs))
  {
    if jobs == [] {
      Stays(max, s0);
      s := s0;
    } else {
      var m := InvokeAllBusy(max, s0, jobs[..|jobs| - 1]);
      s := InvokeBusy(max, s0, m, jobs[|jobs| - 1]);
      assert jobs[..|jobs| - 1] + [jobs[|jobs| - 1]] == jobs;
    }
  }

  // ----- Coming to rest with an empty queue

  /** The invoker threads from i on give their tokens back: the chunks they take are refused. */
  lemma {:induction false} Release(max: nat, s0: State, s: State, i: nat) returns (s': State)
    requires Reaches(max, s0, s) && i <= |s.invokers| && s.pending != [] && s.invoking == multiset{}
    requires forall j :: i <= j < |s.invokers| ==> s.invokers[j].WantChunk?
    requires forall j :: 0 <= j < i ==> s.invokers[j].WantToken?
    ensures Reaches(max, s0, s') && AllWant(s'.invokers, WantToken)
    ensures s' == s.(tokens := s'.tokens, pending := s'.pending, invokers := s'.invokers)
    decreases |s.invokers| - i
  {
    if i == |s.invokers| {
      s' := s;
    } else {
      var c := s.pending[0];
      var m := Send(max, s0, s, i);
      m := Bounce(max, s0, m, c);
      assert s.invoking + multiset{c} - multiset{c} == s.invoking;
      s' := Release(max, s0, m, i + 1);
    }
  }

  /** Nothing runs, and what is done was full. */
  predicate Clearing(s: State) {
    && s.user.Ready? && s.started && AllWant(s.invokers, WantToken)
    && s.invoking == multiset{} && s.refused == multiset{} && s.owing == 0 && s.active == multiset{}
  }

  lemma ClearingTokens(max: nat, s: State)
    requires Inv(max, s) && Clearing(s)
    ensures |s.invokers| == ASYNC_INVOKERS && s.tokens == ASYNC_INVOKERS + s.running
  {
    HeldZero(s.invokers);
  }

  /** All full chunks of the queue run and are credited. */
  lemma {:induction false} ClearFull(max: nat, s0: State, s: State) returns (s': State)
    requires Init(s0) && Reaches(max, s0, s) && Clearing(s)
    ensures Reaches(max, s0, s') && Clearing(s') && s'.jobs == s.jobs && s'.running == s.running
    ensures forall k :: 0 <= k < |s'.pending| ==> Partial(s'.pending[k])
    decreases |s.pending|
  {
    ReachedInv(max, s0, s);
    ClearingTokens(max, s);
    if k :| 0 <= k < |s.pending| && !Partial(s.pending[k]) {
      var m := TurnTo(max, s0, s, k);
      var c := m.pending[0];
      m := Keep(max, s0, m);
      Credits(max, m, c);
      Then(max, s0, m, Credited(m, c), Credit(c));
      s' := ClearFull(max, s0, Credited(m, c));
    } else {
      s' := s;
    }
  }

  /** Partial chunks that wait are no more than the jobs that have one, and than all chunks. */
  lemma FewWait(s: State)
    requires ChunksConserved(s) && forall k :: 0 <= k < |s.pending| ==> Partial(s.pending[k])
    ensures |s.pending| <= PartialJobs(s.jobs) && |s.pending| <= TotalChunks(s.jobs)
  {
    var m := multiset(s.pending);
    FewChunks(s);
    forall c | c in m
      ensures Partial(c) && m[c] <= Issued(s.jobs, c)
    {
      CountIs(s.pending, c);
      assert Places(s, c) == Issued(s.jobs, c);
    }
    AtMostPartialJobs(m, s.jobs);
  }

  lemma {:induction false} KeepAll(max: nat, s0: State, s: State) returns (s': State)
    requires Reaches(max, s0, s) && s.invokers != [] && AllWant(s.invokers, WantToken) && |s.pending| <= s.tokens
    requires forall k :: 0 <= k < |s.pending| ==> Partial(s.pending[k])
    requires forall c :: c in s.active ==> Partial(c)
    ensures Reaches(max, s0, s') && s' == s.(tokens := s'.tokens, pending := [], active := s'.active)
    ensures forall c :: c in s'.active ==> Partial(c)
    decreases |s.pending|
  {
    if s.pending == [] {
      s' := s;
    } else {
      var m := Keep(max, s0, s);
      s' := KeepAll(max, s0, m);
    }
  }

  /** With an empty queue only tokens are left to be taken. */
  lemma {:induction false} TakeRest(max: nat, s0: State, s: State) returns (s': State)
    requires Reaches(max, s0, s) && s.user.Ready? && s.pending == []
    requires s.invoking == multiset{} && s.refused == multiset{} && s.owing == 0
    requires forall i :: 0 <= i < |s.invokers| ==> !s.invokers[i].HasChunk?
    requires forall c :: c in s.active ==> Partial(c)
    ensures Reaches(max, s0, s') && s'.jobs == s.jobs && s'.pending == [] && Stuck(max, s')
    decreases s.tokens
  {
    if i :| 0 <= i < |s.invokers| && s.invokers[i].WantToken? && s.tokens > 0 {
      var m := TokenTaken(s, i);
      assert InvokerStep(s, m, TakeToken(i));
      Then(max, s0, s, m, TakeToken(i));
      s' := TakeRest(max, s0, m);
    } else {
      s' := s;
      StuckMeans(max, s);
    }
  }

  lemma RestsClean(max: nat, s0: State, jobs: seq<Job>)
    requires Init(s0) && PartialJobs(jobs) <= max + ASYNC_INVOKERS
    ensures exists s :: Reaches(max, s0, s) && s.jobs == jobs && Stuck(max, s) && s.pending == []
  {
    var m := InvokeAllBusy(max, s0, jobs);
    if jobs != [] {
      m := BounceAll(max, s0, m);
      if m.pending != [] {
        m := Release(max, s0, m, 0);
        m := ClearFull(max, s0, m);
        ReachedInv(max, s0, m);
        ClearingTokens(max, m);
        FewWait(m);
        m := KeepAll(max, s0, m);
      }
    }
    var s := TakeRest(max, s0, m);
  }

  /** And whether all of them do: exactly if there are more partial chunks than tokens. */
  lemma MustStrandIff(max: nat, s0: State, jobs: seq<Job>)
    requires Init(s0)
    ensures (forall s :: Reaches(max, s0, s) && s.jobs == jobs && Stuck(max, s) ==> s.pending != []) <==>
              PartialJobs(jobs) > max + ASYNC_INVOKERS
  {
    if PartialJobs(jobs) <= max + ASYNC_INVOKERS {
      RestsClean(max, s0, jobs);
    } else {
      forall s | Reaches(max, s0, s) && s.jobs == jobs && Stuck(max, s)
        ensures s.pending != []
      {
        var run, trace :| Path(max, s0, s, run, trace);
        assert IsRun(max, run, trace);
        AlwaysStranded(max, run, trace, |trace|);
      }
    }
  }

  // ----- Copies of one job

  /** Jobs of one shape, told apart by their ids. */
  function Copies(totalCalls: nat, chunksize: nat, n: nat): seq<Job>
    requires chunksize > 0
  {
    seq(n, i requires 0 <= i < n => RawJob(i, totalCalls, chunksize))
  }

  lemma {:induction false} CopiesPartial(totalCalls: nat, chunksize: nat, n: nat)
    requires chunksize > 0
    ensures PartialJobs(Copies(totalCalls, chunksize, n)) == if totalCalls % chunksize != 0 then n else 0
  {
    if n > 0 {
      CopiesPartial(totalCalls, chunksize, n - 1);
      assert Copies(totalCalls, chunksize, n)[..n - 1] == Copies(totalCalls, chunksize, n - 1);
    }
  }

  lemma {:induction false} PartialChunksCount(jobs: seq<Job>)
    ensures PartialJobs(jobs) <= TotalChunks(jobs)
  {
    if jobs != [] {
      PartialChunksCount(jobs[..|jobs| - 1]);
      if HasPartial(jobs[|jobs| - 1]) {
        PartialChunk(jobs[|jobs| - 1]);
        ChunksNotEmpty(jobs[|jobs| - 1]);
      }
    }
  }

  /** For every number of workers and every shape of job, repeating the job can strand a chunk
      exactly if its last chunk is not full. */
  lemma CopiesStrandIff(max: nat, s0: State, totalCalls: nat, chunksize: nat)
    requires Init(s0) && chunksize > 0
    ensures forall n :: DistinctJobs(Copies(totalCalls, chunksize, n))
    ensures (exists n, s :: Reaches(max, s0, s) && s.jobs == Copies(totalCalls, chunksize, n)
                         && Stuck(max, s) && s.pending != []) <==>
              totalCalls % chunksize != 0
  {
    if totalCalls % chunksize != 0 {
      var n := max + ASYNC_INVOKERS + 1;
      CopiesPartial(totalCalls, chunksize, n);
      PartialChunksCount(Copies(totalCalls, chunksize, n));
      CanStrandIff(max, s0, Copies(totalCalls, chunksize, n));
    } else if n: nat, s :| Reaches(max, s0, s) && s.jobs == Copies(totalCalls, chunksize, n)
                           && Stuck(max, s) && s.pending != [] {
      CopiesPartial(totalCalls, chunksize, n);
      CanStrandIff(max, s0, Copies(totalCalls, chunksize, n));
    }
  }
}

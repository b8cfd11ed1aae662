/** When the scheduler leaves a chunk in the queue for good (lithops/invokers.py, FaaSInvoker,
    with lithops/monitor.py): the monitor gives back the token of a full chunk only, so every
    job whose last chunk is not full uses one token up. */
module Stranding {
  import opened Chunks
  import opened Scheduler

  predicate Partial(c: Chunk) {
    |c.calls| != c.job.chunksize
  }

  /** Nothing happens any more, unless another job is invoked. */
  ghost predicate Stuck(max: nat, s: State) {
    forall s', e :: Next(max, s, s', e) ==> e.Invoke?
  }

  /** The jobs whose last chunk is not full. */
  function PartialJobs(jobs: seq<Job>): nat {
    if jobs == [] then 0
    else PartialJobs(jobs[..|jobs| - 1]) + if HasPartial(jobs[|jobs| - 1]) then 1 else 0
  }

  predicate HasPartial(job: Job) {
    job.totalCalls % job.chunksize != 0
  }

  // ----- Stuck states

  /** Nothing is under way but chunks that run on the backend. */
  predicate Quiet(s: State) {
    && s.user.Ready?
    && s.invoking == multiset{} && s.refused == multiset{} && s.owing == 0
    && forall v :: v in s.invokers ==> !v.HasChunk?
  }

  lemma {:induction false} HeldZero(invokers: seq<Invoker>)
    ensures Held(invokers) == 0 <==> forall i :: 0 <= i < |invokers| ==> invokers[i].WantToken?
  {
    if invokers != [] {
      HeldZero(invokers[1..]);
      assert forall i :: 1 <= i < |invokers| ==> invokers[i] == invokers[1..][i - 1];
    }
  }

  /** A step that the user thread can always take before it is ready. */
  lemma UserCanStep(max: nat, s: State)
    requires !s.user.Ready?
    ensures exists s', e :: Next(max, s, s', e) && !e.Invoke?
  {
    match s.user
    case Launching(job) =>
      var s' :=
        if s.seeded == |s.invokers| then s.(seeded := s.seeded + 1, tokens := s.tokens + 1)
        else s.(invokers := s.invokers + [WantToken],
                user := if |s.invokers| + 1 == ASYNC_INVOKERS then DrainTest(job) else s.user);
      assert UserStep(max, s, s', Launch);
      assert Next(max, s, s', Launch);
    case DrainTest(job) =>
      var s' := s.(user := if s.running > 0 && s.tokens > 0 then DrainGet(job) else Deciding(job));
      assert UserStep(max, s, s', Drain);
      assert Next(max, s, s', Drain);
    case DrainGet(job) =>
      var s' :=
        if s.tokens == 0 then s.(user := DrainTest(job))
        else s.(tokens := s.tokens - 1, running := s.running - 1,
                user := if s.running - 1 == 0 then Deciding(job) else DrainTest(job));
      assert UserStep(max, s, s', Drain);
      assert Next(max, s, s', Drain);
    case Deciding(job) =>
      var s' := Decided(max, s, job);
      assert Next(max, s, s', Decide);
    case Dispatching(direct, queued) =>
      var s' := Dispatched(s);
      assert Next(max, s, s', Dispatch);
  }

  function Decided(max: nat, s: State, job: Job): (s': State)
    requires s.user == Deciding(job)
    ensures UserStep(max, s, s', Decide)
  {
    var calls := Range(job.totalCalls);
    var n := DirectCalls(max, s.running, job);
    s.(running := s.running + CeilDiv(n, job.chunksize),
       user := Dispatching(ChunksOf(job, calls[..n]), ChunksOf(job, calls[n..])),
       jobs := s.jobs + [job])
  }

  function Dispatched(s: State): (s': State)
    requires s.user.Dispatching?
    ensures UserStep(0, s, s', Dispatch) && forall max: nat :: UserStep(max, s, s', Dispatch)
  {
    var (direct, queued) := (s.user.direct, s.user.queued);
    if direct != [] then s.(user := Dispatching(direct[1..], queued), invoking := s.invoking + multiset{direct[0]})
    else if queued != [] then s.(user := Dispatching([], queued[1..]), pending := s.pending + [queued[0]])
    else s.(user := Ready)
  }

  // Steps of a state that is not stuck.

  function TokenTaken(s: State, i: nat): State
    requires i < |s.invokers| && s.tokens > 0
  {
    s.(tokens := s.tokens - 1, invokers := s.invokers[i := WantChunk])
  }

  function ChunkTaken(s: State, i: nat): State
    requires i < |s.invokers| && s.pending != []
  {
    s.(pending := s.pending[1..], invokers := s.invokers[i := HasChunk(s.pending[0])])
  }

  function Submitted(s: State, i: nat): State
    requires i < |s.invokers| && s.invokers[i].HasChunk?
  {
    s.(invokers := s.invokers[i := WantToken], invoking := s.invoking + multiset{s.invokers[i].chunk})
  }

  function Accepted(s: State, c: Chunk): State {
    s.(invoking := s.invoking - multiset{c}, active := s.active + multiset{c})
  }

  function Requeued(s: State, c: Chunk): State {
    s.(refused := s.refused - multiset{c}, pending := s.pending + [c], owing := s.owing + 1)
  }

  function Returned(s: State): State
    requires s.owing > 0
  {
    s.(owing := s.owing - 1, tokens := s.tokens + 1)
  }

  function Credited(s: State, c: Chunk): State {
    s.(active := s.active - multiset{c}, credited := s.credited + multiset{c}, tokens := s.tokens + 1)
  }

  /** What can happen in s once the user thread is ready, refusals apart. */
  ghost predicate CanGoOn(s: State) {
    || (exists i :: 0 <= i < |s.invokers| && CanMove(s, i))
    || s.invoking != multiset{} || s.refused != multiset{} || s.owing > 0
    || exists c :: c in s.active && !Partial(c)
  }

  predicate CanMove(s: State, i: nat)
    requires i < |s.invokers|
  {
    match s.invokers[i]
    case WantToken => s.tokens > 0
    case WantChunk => s.pending != []
    case HasChunk(_) => true
  }

  /** Steps left for a state with the user thread ready, weighted. */
  function Work(s: State): nat {
    8 * |s.refused| + 6 * |s.pending| + s.owing + 3 * |s.invoking| + 2 * |s.active| + Weights(s.invokers)
  }

  function Weight(v: Invoker): nat {
    match v
    case WantToken => 1
    case WantChunk => 0
    case HasChunk(_) => 5
  }

  function Weights(invokers: seq<Invoker>): nat {
    if invokers == [] then 0 else Weights(invokers[1..]) + Weight(invokers[0])
  }

  lemma {:induction false} WeightsUpdate(invokers: seq<Invoker>, i: nat, v: Invoker)
    requires i < |invokers|
    ensures Weights(invokers[i := v]) + Weight(invokers[i]) == Weights(invokers) + Weight(v)
  {
    var updated := invokers[i := v];
    if i == 0 {
      assert updated[1..] == invokers[1..];
    } else {
      WeightsUpdate(invokers[1..], i - 1, v);
      assert updated[1..] == invokers[1..][i - 1 := v];
    }
  }

  predicate LessWork(s: State, s': State) {
    Work(s') < Work(s) && s'.user == s.user && s'.jobs == s.jobs
  }

  lemma Moves(max: nat, s: State, i: nat) returns (s': State, e: Event)
    requires i < |s.invokers| && CanMove(s, i)
    ensures Next(max, s, s', e) && !e.Invoke? && LessWork(s, s')
  {
    match s.invokers[i]
    case WantToken =>
      s', e := TokenTaken(s, i), TakeToken(i);
      WeightsUpdate(s.invokers, i, WantChunk);
    case WantChunk =>
      s', e := ChunkTaken(s, i), TakeChunk(i);
      WeightsUpdate(s.invokers, i, HasChunk(s.pending[0]));
    case HasChunk(c) =>
      s', e := Submitted(s, i), Submit(i);
      WeightsUpdate(s.invokers, i, WantToken);
  }

  lemma GoesOn(max: nat, s: State) returns (s': State, e: Event)
    requires CanGoOn(s)
    ensures Next(max, s, s', e) && !e.Invoke? && LessWork(s, s')
  {
    if i :| 0 <= i < |s.invokers| && CanMove(s, i) {
      s', e := Moves(max, s, i);
    } else {
      s', e := BackendGoesOn(max, s);
    }
  }

  lemma Accepts(max: nat, s: State, c: Chunk)
    requires c in s.invoking
    ensures Next(max, s, Accepted(s, c), Accept(c)) && LessWork(s, Accepted(s, c))
  {
    assert BackendStep(s, Accepted(s, c), Accept(c));
  }

  lemma Requeues(max: nat, s: State, c: Chunk)
    requires c in s.refused
    ensures Next(max, s, Requeued(s, c), Requeue(c)) && LessWork(s, Requeued(s, c))
  {
    assert BackendStep(s, Requeued(s, c), Requeue(c));
  }

  lemma Returns(max: nat, s: State)
    requires s.owing > 0
    ensures Next(max, s, Returned(s), ReturnToken) && LessWork(s, Returned(s))
  {
    assert BackendStep(s, Returned(s), ReturnToken);
  }

  lemma Credits(max: nat, s: State, c: Chunk)
    requires c in s.active && !Partial(c)
    ensures Next(max, s, Credited(s, c), Credit(c)) && LessWork(s, Credited(s, c))
  {
    assert BackendStep(s, Credited(s, c), Credit(c));
  }

  lemma BackendGoesOn(max: nat, s: State) returns (s': State, e: Event)
    requires s.invoking != multiset{} || s.refused != multiset{} || s.owing > 0
             || exists c :: c in s.active && !Partial(c)
    ensures Next(max, s, s', e) && !e.Invoke? && LessWork(s, s')
  {
    if s.invoking != multiset{} {
      var c :| c in s.invoking;
      Accepts(max, s, c);
      s', e := Accepted(s, c), Accept(c);
    } else if s.refused != multiset{} {
      var c :| c in s.refused;
      Requeues(max, s, c);
      s', e := Requeued(s, c), Requeue(c);
    } else if s.owing > 0 {
      Returns(max, s);
      s', e := Returned(s), ReturnToken;
    } else {
      var c :| c in s.active && !Partial(c);
      Credits(max, s, c);
      s', e := Credited(s, c), Credit(c);
    }
  }

  lemma StuckMeans(max: nat, s: State)
    ensures Stuck(max, s) <==> s.user.Ready? && !CanGoOn(s)
  {
    if !s.user.Ready? {
      UserCanStep(max, s);
    } else if CanGoOn(s) {
      var s', e := GoesOn(max, s);
    } else {
      forall s', e | Next(max, s, s', e)
        ensures e.Invoke?
      {
        NothingElse(max, s, s', e);
      }
    }
  }

  lemma NothingElse(max: nat, s: State, s': State, e: Event)
    requires s.user.Ready? && !CanGoOn(s) && Next(max, s, s', e)
    ensures e.Invoke?
  {
    if InvokerStep(s, s', e) {
      assert CanMove(s, e.i);
    }
  }

  /** Before the first job nothing is queued. */
  lemma {:induction false} StartedWithPending(max: nat, run: seq<State>, trace: seq<Event>, i: nat)
    requires IsRun(max, run, trace) && i < |run|
    ensures Started(run[i])
  {
    if i > 0 {
      var m := i - 1;
      StartedWithPending(max, run, trace, m);
      InvRun(max, run, trace, m);
      StartedStep(max, run[m], run[m + 1], trace[m]);
    }
  }

  predicate Started(s: State) {
    !s.started ==> s.pending == [] && s.refused == multiset{} && s.invoking == multiset{}
  }

  lemma StartedStep(max: nat, s: State, s': State, e: Event)
    requires Next(max, s, s', e) && Shape(max, s) && TokensConserved(s) && Started(s)
    ensures Started(s')
  {
    if s.started {
      assert s'.started;
    } else {
      assert s.user.Ready? && s.seeded == 0 && s.running == 0 && s.invokers == [];
    }
  }

  /** Exactly when a chunk is in the queue for good: when nothing is under way, every chunk
      that runs is partial, and there are as many of them as there are tokens. */
  lemma StuckIff(max: nat, run: seq<State>, trace: seq<Event>, i: nat)
    requires IsRun(max, run, trace) && i < |run| && run[i].pending != []
    ensures Stuck(max, run[i]) <==>
              && Quiet(run[i]) && (forall c :: c in run[i].active ==> Partial(c))
              && |run[i].active| == ASYNC_INVOKERS + run[i].running
  {
    var s := run[i];
    InvRun(max, run, trace, i);
    StartedWithPending(max, run, trace, i);
    StuckMeans(max, s);
    HeldZero(s.invokers);
    if Stuck(max, s) {
      assert |s.invokers| == ASYNC_INVOKERS && !CanMove(s, 0);
      forall j | 0 <= j < |s.invokers|
        ensures s.invokers[j].WantToken? && s.tokens == 0
      {
        assert !CanMove(s, j);
      }
      forall v | v in s.invokers
        ensures !v.HasChunk?
      {
      }
    } else if Quiet(s) && (forall c :: c in s.active ==> Partial(c)) {
      var j :| 0 <= j < |s.invokers| && CanMove(s, j);
      assert s.invokers[j] in s.invokers;
    }
  }

  // ----- Partial chunks

  function LastChunk(job: Job): Chunk
    requires job.totalCalls > 0
  {
    ChunksNotEmpty(job);
    AllChunks(job)[|AllChunks(job)| - 1]
  }

  lemma ChunksNotEmpty(job: Job)
    requires job.totalCalls > 0
    ensures |AllChunks(job)| > 0
  {
    ChunkAt(Range(job.totalCalls), job.chunksize, 0, 0);
  }

  lemma ChunkLength(job: Job, w: nat, start: nat)
    requires start == w * job.chunksize && w < |AllChunks(job)|
    ensures start < job.totalCalls
    ensures |AllChunks(job)[w].calls| == Min(job.chunksize, job.totalCalls - start) && AllChunks(job)[w].job == job
  {
    ChunkAt(Range(job.totalCalls), job.chunksize, w, start);
  }

  /** The chunks before the last one are full, and the last one is as long as what is left. */
  lemma ChunkFull(job: Job, q: nat, r: nat, w: nat)
    requires job.totalCalls == q * job.chunksize + r && 0 < r < job.chunksize
    ensures w < |AllChunks(job)| <==> w <= q
    ensures w <= q ==>
              |AllChunks(job)[w].calls| == (if w == q then r else job.chunksize) && AllChunks(job)[w].job == job
  {
    var n := job.chunksize;
    var start := w * n;
    ChunkAt(Range(job.totalCalls), n, w, start);
    if w < q {
      MulMonotone(w + 1, q, n);
      Distribute(w, 1, n);
    } else if w > q {
      MulMonotone(q + 1, w, n);
      Distribute(q, 1, n);
    }
  }

  /** Which chunk of a job is partial: the last one, if any. */
  lemma PartialChunk(job: Job)
    requires HasPartial(job)
    ensures job.totalCalls > 0 && Partial(LastChunk(job)) && LastChunk(job).job == job
    ensures Count(AllChunks(job), LastChunk(job)) == 1
    ensures forall c :: c in AllChunks(job) && Partial(c) ==> c == LastChunk(job)
  {
    var q, r := job.totalCalls / job.chunksize, job.totalCalls % job.chunksize;
    assert job.totalCalls == q * job.chunksize + r;
    LastIsPartial(job, q, r);
    OnceInChunks(job, q, r);
    forall c | c in AllChunks(job) && Partial(c)
      ensures c == LastChunk(job)
    {
      OnlyLastPartial(job, q, r, c);
    }
  }

  lemma LastIsPartial(job: Job, q: nat, r: nat)
    requires job.totalCalls == q * job.chunksize + r && 0 < r < job.chunksize
    ensures job.totalCalls > 0 && |AllChunks(job)| == q + 1 && LastChunk(job) == AllChunks(job)[q]
    ensures Partial(LastChunk(job)) && LastChunk(job).job == job
  {
    MulMonotone(0, q, job.chunksize);
    ChunkFull(job, q, r, q);
    ChunkFull(job, q, r, q + 1);
  }

  lemma OnlyLastPartial(job: Job, q: nat, r: nat, c: Chunk)
    requires job.totalCalls == q * job.chunksize + r && 0 < r < job.chunksize
    requires c in AllChunks(job) && Partial(c)
    ensures q < |AllChunks(job)| && c == AllChunks(job)[q]
  {
    var w :| 0 <= w < |AllChunks(job)| && AllChunks(job)[w] == c;
    ChunkFull(job, q, r, w);
  }

  lemma OnceInChunks(job: Job, q: nat, r: nat)
    requires job.totalCalls == q * job.chunksize + r && 0 < r < job.chunksize
    ensures q < |AllChunks(job)| && Count(AllChunks(job), AllChunks(job)[q]) == 1
  {
    MulMonotone(0, q, job.chunksize);
    CallInOneChunk(job, q, 0);
  }

  /** If the chunk size divides the call count, all chunks of the job are full. */
  lemma FullChunks(job: Job, c: Chunk)
    requires !HasPartial(job) && c in AllChunks(job)
    ensures !Partial(c)
  {
    var n, q := job.chunksize, job.totalCalls / job.chunksize;
    assert job.totalCalls == q * n;
    var w :| 0 <= w < |AllChunks(job)| && AllChunks(job)[w] == c;
    ChunkLength(job, w, w * n);
    if q <= w {
      MulMonotone(q, w, n);
    }
    Distribute(w, 1, n);
    MulMonotone(w + 1, q, n);
  }

  /** A partial chunk handed out is one job's last chunk. */
  lemma IssuedPartial(jobs: seq<Job>, c: Chunk)
    requires jobs != [] && Partial(c)
    ensures var last := jobs[|jobs| - 1];
            Issued(jobs, c) == Issued(jobs[..|jobs| - 1], c)
              + if HasPartial(last) && c == LastChunk(last) then 1 else 0
  {
    var last := jobs[|jobs| - 1];
    CountPositive(AllChunks(last), c);
    if HasPartial(last) {
      PartialChunk(last);
    } else if c in AllChunks(last) {
      FullChunks(last, c);
    }
  }

  /** Partial chunks that are there no more often than handed out are no more than there are
      jobs with one. */
  lemma {:induction false} AtMostPartialJobs(m: multiset<Chunk>, jobs: seq<Job>)
    requires forall c :: c in m ==> Partial(c) && m[c] <= Issued(jobs, c)
    ensures |m| <= PartialJobs(jobs)
  {
    if jobs == [] {
      forall c
        ensures c !in m
      {
      }
      assert m == multiset{};
    } else {
      var front, last := jobs[..|jobs| - 1], jobs[|jobs| - 1];
      var m' := if HasPartial(last) then m - multiset{LastChunk(last)} else m;
      forall c | c in m'
        ensures Partial(c) && m'[c] <= Issued(front, c)
      {
        assert c in m;
        IssuedPartial(jobs, c);
      }
      AtMostPartialJobs(m', front);
    }
  }

  /** Partial chunks that are there as often as handed out are as many as jobs with one. */
  lemma {:induction false} AtLeastPartialJobs(m: multiset<Chunk>, jobs: seq<Job>)
    requires forall c :: Partial(c) ==> m[c] >= Issued(jobs, c)
    ensures |m| >= PartialJobs(jobs)
  {
    if jobs != [] {
      var front, last := jobs[..|jobs| - 1], jobs[|jobs| - 1];
      var m' := m;
      if HasPartial(last) {
        PartialChunk(last);
        IssuedPartial(jobs, LastChunk(last));
        m' := m - multiset{LastChunk(last)};
        assert |m'| == |m| - 1;
      }
      forall c | Partial(c)
        ensures m'[c] >= Issued(front, c)
      {
        IssuedPartial(jobs, c);
      }
      AtLeastPartialJobs(m', front);
    }
  }

  /** In a run in which only partial chunks are active, they are no more than the jobs that
      have one. */
  lemma RunningPartial(max: nat, run: seq<State>, trace: seq<Event>, i: nat)
    requires IsRun(max, run, trace) && i < |run| && forall c :: c in run[i].active ==> Partial(c)
    ensures |run[i].active| <= PartialJobs(run[i].jobs)
  {
    var s := run[i];
    InvRun(max, run, trace, i);
    forall c | c in s.active
      ensures Partial(c) && s.active[c] <= Issued(s.jobs, c)
    {
      assert Places(s, c) == Issued(s.jobs, c);
    }
    AtMostPartialJobs(s.active, s.jobs);
  }

  // ----- Many partial chunks always do

  predicate CreditedFull(s: State) {
    forall c :: c in s.credited ==> !Partial(c)
  }

  lemma {:induction false} CreditedFullRun(max: nat, run: seq<State>, trace: seq<Event>, i: nat)
    requires IsRun(max, run, trace) && i < |run|
    ensures CreditedFull(run[i])
  {
    if i > 0 {
      var m := i - 1;
      CreditedFullRun(max, run, trace, m);
      assert Next(max, run[m], run[m + 1], trace[m]);
      CreditedFullStep(max, run[m], run[m + 1], trace[m]);
    }
  }

  lemma CreditedFullStep(max: nat, s: State, s': State, e: Event)
    requires CreditedFull(s) && Next(max, s, s', e)
    ensures CreditedFull(s')
  {
    if UserStep(max, s, s', e) || InvokerStep(s, s', e) {
      CreditsNothing(max, s, s', e);
    }
  }

  lemma CreditsNothing(max: nat, s: State, s': State, e: Event)
    requires UserStep(max, s, s', e) || InvokerStep(s, s', e)
    ensures s'.credited == s.credited
  {
  }

  /** With more jobs that have a partial chunk than there can be tokens, every run that comes
      to rest has left a chunk in the queue. */
  lemma AlwaysStranded(max: nat, run: seq<State>, trace: seq<Event>, i: nat)
    requires IsRun(max, run, trace) && i < |run| && Stuck(max, run[i])
    requires PartialJobs(run[i].jobs) > max + ASYNC_INVOKERS
    ensures run[i].pending != []
  {
    var s := run[i];
    InvRun(max, run, trace, i);
    CreditedFullRun(max, run, trace, i);
    StuckMeans(max, s);
    if s.pending == [] {
      forall c | Partial(c)
        ensures s.active[c] >= Issued(s.jobs, c)
      {
        NotCarried(s, c);
        assert Places(s, c) == Issued(s.jobs, c);
      }
      AtLeastPartialJobs(s.active, s.jobs);
    }
  }

  lemma NotCarried(s: State, c: Chunk)
    requires !CanGoOn(s)
    ensures Carried(s.invokers, c) == 0
  {
    forall i | 0 <= i < |s.invokers|
      ensures !s.invokers[i].HasChunk?
    {
      assert !CanMove(s, i);
    }
    NoneCarried(s.invokers, c);
  }

  lemma {:induction false} NoneCarried(invokers: seq<Invoker>, c: Chunk)
    requires forall i :: 0 <= i < |invokers| ==> !invokers[i].HasChunk?
    ensures Carried(invokers, c) == 0
  {
    if invokers != [] {
      NoneCarried(invokers[1..], c);
    }
  }

  // ----- Runs that come to rest

  ghost predicate Path(max: nat, s: State, s': State, run: seq<State>, trace: seq<Event>) {
    && |run| == |trace| + 1 && run[0] == s && run[|trace|] == s'
    && forall i :: 0 <= i < |trace| ==> Next(max, run[i], run[i + 1], trace[i])
  }

  ghost predicate Reaches(max: nat, s: State, s': State) {
    exists run, trace :: Path(max, s, s', run, trace)
  }

  lemma Stays(max: nat, s: State)
    ensures Reaches(max, s, s)
  {
    assert Path(max, s, s, [s], []);
  }

  lemma Then(max: nat, s: State, m: State, s': State, e: Event)
    requires Reaches(max, s, m) && Next(max, m, s', e)
    ensures Reaches(max, s, s')
  {
    var run, trace :| Path(max, s, m, run, trace);
    assert Path(max, s, s', run + [s'], trace + [e]);
  }

  lemma ReachedInv(max: nat, s0: State, s: State)
    requires Init(s0) && Reaches(max, s0, s)
    ensures Inv(max, s)
  {
    var run, trace :| Path(max, s0, s, run, trace);
    assert IsRun(max, run, trace);
    InvRun(max, run, trace, |trace|);
  }

  /** From every state in which the user thread is ready the system can come to rest. */
  lemma {:induction false} ComesToRest(max: nat, s0: State, s: State) returns (s': State)
    requires Reaches(max, s0, s) && s.user.Ready?
    ensures Reaches(max, s0, s') && Stuck(max, s') && s'.jobs == s.jobs
    decreases Work(s)
  {
    StuckMeans(max, s);
    if CanGoOn(s) {
      var m, e := GoesOn(max, s);
      Then(max, s0, s, m, e);
      s' := ComesToRest(max, s0, m);
    } else {
      s' := s;
    }
  }
}

/** The token-bucket scheduler of the FaaS invoker (lithops/invokers.py, FaaSInvoker) as a
    concurrent system: one user thread that invokes jobs, ASYNC_INVOKERS invoker threads,
    thread pools that call the backend, and the monitor that puts a token back for every
    chunk it sees finished (TokenMonitor says which chunks those are). */
module Scheduler {
  import opened Chunks

  const ASYNC_INVOKERS: nat := 2

  datatype RawJob = RawJob(id: nat, totalCalls: nat, chunksize: nat)
  type Job = j: RawJob | j.chunksize > 0 witness RawJob(0, 0, 1)

  datatype Chunk = Chunk(job: Job, calls: seq<nat>)

  function Range(n: nat): seq<nat> {
    seq(n, i => i)
  }

  function Tag(job: Job, chunks: seq<seq<nat>>): seq<Chunk> {
    seq(|chunks|, i requires 0 <= i < |chunks| => Chunk(job, chunks[i]))
  }

  /** The chunks of a run of a job's calls. */
  function ChunksOf(job: Job, calls: seq<nat>): seq<Chunk> {
    Tag(job, IterChunks(calls, job.chunksize))
  }

  function AllChunks(job: Job): seq<Chunk> {
    ChunksOf(job, Range(job.totalCalls))
  }

  /** Where _invoke_job is. The chunks of Dispatching are still to be submitted or queued. */
  datatype User =
    | Ready
    | Launching(job: Job)
    | DrainTest(job: Job)
    | DrainGet(job: Job)
    | Deciding(job: Job)
    | Dispatching(direct: seq<Chunk>, queued: seq<Chunk>)

  datatype Invoker = WantToken | WantChunk | HasChunk(chunk: Chunk)

  /** `tokens` and `pending` are the two queues. A chunk given to a thread pool is `invoking`
      until the backend answers, then `active`, or `refused` until it is put back; `owing`
      counts refused chunks that are back in the queue while their token is not. `seeded`
      and `jobs` record the tokens put at start and the jobs handed out so far. */
  datatype State = State(
    started: bool, seeded: nat, tokens: nat, running: int, pending: seq<Chunk>,
    user: User, invokers: seq<Invoker>,
    invoking: multiset<Chunk>, refused: multiset<Chunk>, owing: nat,
    active: multiset<Chunk>, credited: multiset<Chunk>, jobs: seq<Job>)

  datatype Event =
    | Invoke(job: Job) | Launch | Drain | Decide | Dispatch
    | TakeToken(i: nat) | TakeChunk(i: nat) | Submit(i: nat)
    | Accept(c: Chunk) | Refuse(c: Chunk) | Requeue(c: Chunk) | ReturnToken
    | Credit(c: Chunk) | CreditEarly(c: Chunk)

  predicate Init(s: State) {
    s == State(false, 0, 0, 0, [], Ready, [], multiset{}, multiset{}, 0, multiset{}, multiset{}, [])
  }

  /** How many calls are submitted at once: `free_workers * chunksize`, cut at the end. */
  function DirectCalls(max: nat, running: int, job: Job): nat {
    if running < max then
      MulMonotone(0, max - running, job.chunksize);
      Min((max - running) * job.chunksize, job.totalCalls)
    else 0
  }

  /** The user thread. */
  predicate UserStep(max: nat, s: State, s': State, e: Event) {
    match (s.user, e)
    case (Ready, Invoke(job)) =>
      if s.started then s' == s.(user := DrainTest(job))
      else s' == s.(started := true, running := 0, user := Launching(job))
    case (Launching(job), Launch) =>
      if s.seeded == |s.invokers| then s' == s.(seeded := s.seeded + 1, tokens := s.tokens + 1)
      else s' == s.(invokers := s.invokers + [WantToken],
                    user := if |s.invokers| + 1 == ASYNC_INVOKERS then DrainTest(job) else s.user)
    case (DrainTest(job), Drain) =>
      s' == s.(user := if s.running > 0 && s.tokens > 0 then DrainGet(job) else Deciding(job))
    case (DrainGet(job), Drain) =>
      // `get(False)` fails when an invoker thread was faster.
      if s.tokens == 0 then s' == s.(user := DrainTest(job))
      else s' == s.(tokens := s.tokens - 1, running := s.running - 1,
                    user := if s.running - 1 == 0 then Deciding(job) else DrainTest(job))
    case (Deciding(job), Decide) =>
      var calls := Range(job.totalCalls);
      var n := DirectCalls(max, s.running, job);
      s' == s.(running := s.running + CeilDiv(n, job.chunksize),
               user := Dispatching(ChunksOf(job, calls[..n]), ChunksOf(job, calls[n..])),
               jobs := s.jobs + [job])
    case (Dispatching(direct, queued), Dispatch) =>
      if direct != []
      then s' == s.(user := Dispatching(direct[1..], queued), invoking := s.invoking + multiset{direct[0]})
      else if queued != [] then s' == s.(user := Dispatching([], queued[1..]), pending := s.pending + [queued[0]])
      else s' == s.(user := Ready)
    case _ => false
  }

  /** Invoker thread i. */
  predicate InvokerStep(s: State, s': State, e: Event) {
    match e
    case TakeToken(i) =>
      && i < |s.invokers| && s.invokers[i].WantToken? && s.tokens > 0
      && s' == s.(tokens := s.tokens - 1, invokers := s.invokers[i := WantChunk])
    case TakeChunk(i) =>
      && i < |s.invokers| && s.invokers[i].WantChunk? && s.pending != []
      && s' == s.(pending := s.pending[1..], invokers := s.invokers[i := HasChunk(s.pending[0])])
    case Submit(i) =>
      && i < |s.invokers| && s.invokers[i].HasChunk?
      && s' == s.(invokers := s.invokers[i := WantToken], invoking := s.invoking + multiset{s.invokers[i].chunk})
    case _ => false
  }

  /** The backend's answers, and the monitor, which credits full chunks only. A chunk can be
      finished before the backend's answer is there; the answer then changes nothing. */
  predicate BackendStep(s: State, s': State, e: Event) {
    match e
    case Accept(c) =>
      c in s.invoking && s' == s.(invoking := s.invoking - multiset{c}, active := s.active + multiset{c})
    case Refuse(c) =>
      c in s.invoking && s' == s.(invoking := s.invoking - multiset{c}, refused := s.refused + multiset{c})
    case Requeue(c) =>
      && c in s.refused
      && s' == s.(refused := s.refused - multiset{c}, pending := s.pending + [c], owing := s.owing + 1)
    case ReturnToken => s.owing > 0 && s' == s.(owing := s.owing - 1, tokens := s.tokens + 1)
    case Credit(c) =>
      && c in s.active && |c.calls| == c.job.chunksize
      && s' == s.(active := s.active - multiset{c}, credited := s.credited + multiset{c}, tokens := s.tokens + 1)
    case CreditEarly(c) =>
      && c in s.invoking && |c.calls| == c.job.chunksize
      && s' == s.(invoking := s.invoking - multiset{c}, credited := s.credited + multiset{c}, tokens := s.tokens + 1)
    case _ => false
  }

  predicate Next(max: nat, s: State, s': State, e: Event) {
    UserStep(max, s, s', e) || InvokerStep(s, s', e) || BackendStep(s, s', e)
  }

  ghost predicate IsRun(max: nat, run: seq<State>, trace: seq<Event>) {
    && |run| == |trace| + 1
    && Init(run[0])
    && forall i :: 0 <= i < |trace| ==> Next(max, run[i], run[i + 1], trace[i])
  }

  // ----- The invariant

  /** Invoker threads that hold a token. */
  function Held(invokers: seq<Invoker>): nat {
    if invokers == [] then 0 else Held(invokers[1..]) + if invokers[0].WantToken? then 0 else 1
  }

  function Carried(invokers: seq<Invoker>, c: Chunk): nat {
    if invokers == [] then 0 else Carried(invokers[1..], c) + Carries(invokers[0], c)
  }

  function Carries(v: Invoker, c: Chunk): nat {
    if v == HasChunk(c) then 1 else 0
  }

  function Count(chunks: seq<Chunk>, c: Chunk): nat {
    if chunks == [] then 0 else Count(chunks[1..], c) + if chunks[0] == c then 1 else 0
  }

  function Direct(u: User): seq<Chunk> {
    if u.Dispatching? then u.direct else []
  }

  function Queued(u: User): seq<Chunk> {
    if u.Dispatching? then u.queued else []
  }

  /** Every token put is in the queue, with a thread, or spent on a chunk that is neither
      refused nor credited. */
  predicate TokensConserved(s: State) {
    s.tokens + Held(s.invokers) + |Direct(s.user)| + |s.invoking| + |s.refused| + s.owing + |s.active|
      == s.seeded + s.running
  }

  /** How often a chunk was handed out. */
  function Issued(jobs: seq<Job>, c: Chunk): nat {
    if jobs == [] then 0 else Issued(jobs[..|jobs| - 1], c) + Count(AllChunks(jobs[|jobs| - 1]), c)
  }

  /** With the backend, refused, running, or done. */
  function Remote(s: State, c: Chunk): nat {
    s.invoking[c] + s.refused[c] + s.active[c] + s.credited[c]
  }

  /** How often a chunk is somewhere: waiting to be submitted or queued, in the queue, with
      a thread, with the backend, refused, running, or done. */
  function Places(s: State, c: Chunk): nat {
    Count(Direct(s.user), c) + Count(Queued(s.user), c) + Carried(s.invokers, c) + Count(s.pending, c) + Remote(s, c)
  }

  /** Every chunk is in as many places as it was issued. */
  ghost predicate ChunksConserved(s: State) {
    forall c: Chunk :: Places(s, c) == Issued(s.jobs, c)
  }

  predicate Shape(max: nat, s: State) {
    && 0 <= s.running <= max
    && |s.invokers| <= s.seeded <= ASYNC_INVOKERS
    && (s.user.Launching? ==> s.started && |s.invokers| < ASYNC_INVOKERS && s.seeded <= |s.invokers| + 1)
    && (!s.user.Launching? && s.started ==> |s.invokers| == ASYNC_INVOKERS)
    && (!s.started ==> s.seeded == 0 && s.running == 0 && s.user.Ready?)
    && (s.user.DrainGet? ==> s.running > 0)
  }

  ghost predicate Inv(max: nat, s: State) {
    Shape(max, s) && TokensConserved(s) && ChunksConserved(s)
  }

  lemma {:induction false} HeldUpdate(invokers: seq<Invoker>, i: nat, v: Invoker)
    requires i < |invokers|
    ensures Held(invokers[i := v]) + (if invokers[i].WantToken? then 0 else 1) ==
              Held(invokers) + if v.WantToken? then 0 else 1
  {
    var updated := invokers[i := v];
    if i == 0 {
      assert updated[1..] == invokers[1..];
    } else {
      HeldUpdate(invokers[1..], i - 1, v);
      assert updated[1..] == invokers[1..][i - 1 := v];
    }
  }

  lemma {:induction false} CarriedUpdate(invokers: seq<Invoker>, i: nat, v: Invoker, c: Chunk)
    requires i < |invokers|
    ensures Carried(invokers[i := v], c) + Carries(invokers[i], c) == Carried(invokers, c) + Carries(v, c)
  {
    var updated := invokers[i := v];
    if i == 0 {
      assert updated[1..] == invokers[1..];
    } else {
      CarriedUpdate(invokers[1..], i - 1, v, c);
      assert updated[1..] == invokers[1..][i - 1 := v];
    }
  }

  lemma {:induction false} InvokerAppend(invokers: seq<Invoker>, c: Chunk)
    ensures Held(invokers + [WantToken]) == Held(invokers)
    ensures Carried(invokers + [WantToken], c) == Carried(invokers, c)
  {
    if invokers == [] {
      assert invokers + [WantToken] == [WantToken];
    } else {
      InvokerAppend(invokers[1..], c);
      assert (invokers + [WantToken])[1..] == invokers[1..] + [WantToken];
    }
  }

  lemma {:induction false} CountConcat(a: seq<Chunk>, b: seq<Chunk>, c: Chunk)
    ensures Count(a + b, c) == Count(a, c) + Count(b, c)
  {
    if a == [] {
      assert a + b == b;
    } else {
      CountConcat(a[1..], b, c);
      assert (a + b)[1..] == a[1..] + b;
    }
  }

  /** The chunks submitted at once and the queued ones are, in order, all chunks of the job,
      and there are at most as many of the first as free workers. */
  lemma DirectThenQueued(max: nat, running: int, job: Job)
    requires 0 <= running <= max
    ensures var n := DirectCalls(max, running, job);
            var calls := Range(job.totalCalls);
            && ChunksOf(job, calls[..n]) + ChunksOf(job, calls[n..]) == AllChunks(job)
            && |ChunksOf(job, calls[..n])| == CeilDiv(n, job.chunksize) <= max - running
  {
    var n, calls := DirectCalls(max, running, job), Range(job.totalCalls);
    var free := max - running;
    MulMonotone(0, free, job.chunksize);
    CeilDivIsLeast(n, job.chunksize, free);
    ChunkCount(calls[..n], job.chunksize);
    if n == |calls| {
      assert calls[..n] == calls && calls[n..] == [];
    } else {
      ChunksSplit(calls, job.chunksize, free, n);
    }
  }

  lemma ShapeUserStep(max: nat, s: State, s': State, e: Event)
    requires Shape(max, s) && UserStep(max, s, s', e)
    ensures Shape(max, s')
  {
    if s.user.Deciding? {
      DirectThenQueued(max, s.running, s.user.job);
    }
  }

  lemma ShapeStep(max: nat, s: State, s': State, e: Event)
    requires Shape(max, s) && (InvokerStep(s, s', e) || BackendStep(s, s', e))
    ensures Shape(max, s')
  {
  }

  lemma TokensUserStep(max: nat, s: State, s': State, e: Event)
    requires Shape(max, s) && TokensConserved(s) && UserStep(max, s, s', e)
    ensures TokensConserved(s')
  {
    if s.user.Deciding? {
      DirectThenQueued(max, s.running, s.user.job);
    } else if s.user.Launching? {
      InvokerAppend(s.invokers, Chunk(s.user.job, []));
    }
  }

  lemma TokensInvokerStep(s: State, s': State, e: Event)
    requires TokensConserved(s) && InvokerStep(s, s', e)
    ensures TokensConserved(s')
  {
    HeldUpdate(s.invokers, e.i, s'.invokers[e.i]);
  }

  lemma TokensBackendStep(s: State, s': State, e: Event)
    requires TokensConserved(s) && BackendStep(s, s', e)
    ensures TokensConserved(s')
  {
  }

  lemma TokensStep(max: nat, s: State, s': State, e: Event)
    requires Shape(max, s) && TokensConserved(s) && Next(max, s, s', e)
    ensures Shape(max, s') && TokensConserved(s')
  {
    if UserStep(max, s, s', e) {
      ShapeUserStep(max, s, s', e);
      TokensUserStep(max, s, s', e);
    } else {
      ShapeStep(max, s, s', e);
      if InvokerStep(s, s', e) {
        TokensInvokerStep(s, s', e);
      } else {
        TokensBackendStep(s, s', e);
      }
    }
  }

  lemma DecidingPlaces(max: nat, s: State, s': State, c: Chunk)
    requires Shape(max, s) && s.user.Deciding? && UserStep(max, s, s', Decide)
    ensures Places(s', c) - Places(s, c) == Issued(s'.jobs, c) - Issued(s.jobs, c)
  {
    DirectThenQueued(max, s.running, s.user.job);
    CountConcat(s'.user.direct, s'.user.queued, c);
    assert s'.jobs[..|s'.jobs| - 1] == s.jobs;
  }

  lemma DispatchingPlaces(max: nat, s: State, s': State, c: Chunk)
    requires s.user.Dispatching? && UserStep(max, s, s', Dispatch)
    ensures Places(s', c) == Places(s, c) && s'.jobs == s.jobs
  {
    var direct, queued := s.user.direct, s.user.queued;
    if direct != [] {
      assert s'.invoking[c] == s.invoking[c] + if direct[0] == c then 1 else 0;
    } else if queued != [] {
      CountConcat(s.pending, [queued[0]], c);
    }
  }

  lemma PlacesUserStep(max: nat, s: State, s': State, e: Event, c: Chunk)
    requires Shape(max, s) && UserStep(max, s, s', e)
    ensures Places(s', c) - Places(s, c) == Issued(s'.jobs, c) - Issued(s.jobs, c)
  {
    match s.user
    case Deciding(_) =>
      DecidingPlaces(max, s, s', c);
    case Dispatching(_, _) =>
      DispatchingPlaces(max, s, s', c);
    case Launching(_) =>
      InvokerAppend(s.invokers, c);
    case _ =>
  }

  lemma PlacesInvokerStep(s: State, s': State, e: Event, c: Chunk)
    requires InvokerStep(s, s', e)
    ensures Places(s', c) == Places(s, c) && s'.jobs == s.jobs
  {
    CarriedUpdate(s.invokers, e.i, s'.invokers[e.i], c);
  }

  lemma RemoteStep(s: State, s': State, e: Event, c: Chunk)
    requires BackendStep(s, s', e) && !e.Requeue?
    ensures Remote(s', c) == Remote(s, c)
  {
  }

  lemma PlacesBackendStep(s: State, s': State, e: Event, c: Chunk)
    requires BackendStep(s, s', e)
    ensures Places(s', c) == Places(s, c) && s'.jobs == s.jobs
  {
    assert s'.user == s.user && s'.invokers == s.invokers;
    if e.Requeue? {
      CountConcat(s.pending, [e.c], c);
    } else {
      RemoteStep(s, s', e, c);
    }
  }

  lemma PlacesStep(max: nat, s: State, s': State, e: Event, c: Chunk)
    requires Shape(max, s) && Places(s, c) == Issued(s.jobs, c) && Next(max, s, s', e)
    ensures Places(s', c) == Issued(s'.jobs, c)
  {
    if UserStep(max, s, s', e) {
      PlacesUserStep(max, s, s', e, c);
    } else if InvokerStep(s, s', e) {
      PlacesInvokerStep(s, s', e, c);
    } else {
      PlacesBackendStep(s, s', e, c);
    }
  }

  lemma InvStep(max: nat, s: State, s': State, e: Event)
    requires Inv(max, s) && Next(max, s, s', e)
    ensures Inv(max, s')
  {
    TokensStep(max, s, s', e);
    forall c: Chunk
      ensures Places(s', c) == Issued(s'.jobs, c)
    {
      PlacesStep(max, s, s', e, c);
    }
  }

  lemma {:induction false} InvRun(max: nat, run: seq<State>, trace: seq<Event>, i: nat)
    requires IsRun(max, run, trace) && i < |run|
    ensures Inv(max, run[i])
  {
    if i > 0 {
      InvRun(max, run, trace, i - 1);
      InvStep(max, run[i - 1], run[i - 1 + 1], trace[i - 1]);
    }
  }

  // ----- What it means

  /** Conservation and the concurrency bound, in every reachable state. */
  lemma Conservation(max: nat, run: seq<State>, trace: seq<Event>, i: nat)
    requires IsRun(max, run, trace) && i < |run|
    ensures var s := run[i];
            && s.tokens + Held(s.invokers) + |Direct(s.user)| + |s.invoking| + |s.refused| + s.owing + |s.active|
                 == s.seeded + s.running
            && 0 <= s.running <= max
            && (s.started && !s.user.Launching? ==> s.seeded == ASYNC_INVOKERS)
            && |s.invoking| + |s.active| <= max + ASYNC_INVOKERS
  {
    InvRun(max, run, trace, i);
  }

  /** Every chunk is, at any time, in as many places as it was handed out. */
  lemma ChunkConservation(max: nat, run: seq<State>, trace: seq<Event>, i: nat, c: Chunk)
    requires IsRun(max, run, trace) && i < |run|
    ensures Places(run[i], c) == Issued(run[i].jobs, c)
  {
    InvRun(max, run, trace, i);
  }

  lemma {:induction false} CountPositive(chunks: seq<Chunk>, c: Chunk)
    ensures Count(chunks, c) > 0 <==> c in chunks
  {
    if chunks != [] {
      CountPositive(chunks[1..], c);
      assert chunks == [chunks[0]] + chunks[1..];
    }
  }

  lemma {:induction false} CountDistinct(chunks: seq<Chunk>, w: nat)
    requires w < |chunks|
    requires forall v, u :: 0 <= v < u < |chunks| ==> chunks[v] != chunks[u]
    ensures Count(chunks, chunks[w]) == 1
  {
    if w == 0 {
      CountPositive(chunks[1..], chunks[0]);
    } else {
      CountDistinct(chunks[1..], w - 1);
    }
  }

  /** Call `w * chunksize + k` is in chunk w and in no other, and that chunk occurs once. */
  lemma CallInOneChunk(job: Job, w: nat, k: nat)
    requires k < job.chunksize && 0 <= w * job.chunksize + k < job.totalCalls
    ensures w < |AllChunks(job)| && Count(AllChunks(job), AllChunks(job)[w]) == 1
    ensures forall c :: c in AllChunks(job) && w * job.chunksize + k in c.calls <==> c == AllChunks(job)[w]
  {
    var n, calls, chunks := job.chunksize, Range(job.totalCalls), AllChunks(job);
    var id := w * n + k;
    ChunkElement(calls, n, w, k, w * n);
    assert id == calls[id];
    forall v | 0 <= v < |chunks|
      ensures id in chunks[v].calls <==> v == w
      ensures chunks[v].calls != []
    {
      CallOnlyIn(job, w, k, v);
    }
    forall v, u | 0 <= v < u < |chunks|
      ensures chunks[v] != chunks[u]
    {
      FirstCall(job, v);
      FirstCall(job, u);
      MulMonotone(v + 1, u, n);
      assert (v + 1) * n == v * n + n;
    }
    CountDistinct(chunks, w);
  }

  lemma FirstCall(job: Job, v: nat)
    requires v < |AllChunks(job)|
    ensures AllChunks(job)[v].calls != [] && AllChunks(job)[v].calls[0] == v * job.chunksize
  {
    MulMonotone(0, v, job.chunksize);
    ChunkAt(Range(job.totalCalls), job.chunksize, v, v * job.chunksize);
  }

  lemma CallOnlyIn(job: Job, w: nat, k: nat, v: nat)
    requires k < job.chunksize && 0 <= w * job.chunksize + k < job.totalCalls && v < |AllChunks(job)|
    ensures w * job.chunksize + k in AllChunks(job)[v].calls <==> v == w
    ensures AllChunks(job)[v].calls != []
  {
    var n, calls := job.chunksize, Range(job.totalCalls);
    var chunk := AllChunks(job)[v].calls;
    FirstCall(job, v);
    MulMonotone(0, v, n);
    ChunkElement(calls, n, w, k, w * n);
    if v == w {
      assert chunk[k] == calls[w * n + k];
    }
    if w * n + k in chunk {
      var k' :| 0 <= k' < |chunk| && chunk[k'] == w * n + k;
      ChunkElement(calls, n, v, 0, v * n);
      ChunkElement(calls, n, v, k', v * n);
      QuotientUnique(n, w, k, v, k');
    }
  }

  predicate DistinctJobs(jobs: seq<Job>) {
    forall a, b :: 0 <= a < b < |jobs| ==> jobs[a] != jobs[b]
  }

  lemma {:induction false} IssuedOnce(jobs: seq<Job>, c: Chunk)
    requires DistinctJobs(jobs)
    ensures Issued(jobs, c) == if c.job in jobs then Count(AllChunks(c.job), c) else 0
  {
    if jobs != [] {
      var front, last := jobs[..|jobs| - 1], jobs[|jobs| - 1];
      IssuedOnce(front, c);
      CountPositive(AllChunks(last), c);
      assert jobs == front + [last];
    }
  }

  /** Call conservation: while no job is handed out twice, every call of every job handed
      out is in exactly one chunk, and that chunk is in exactly one place. */
  lemma CallConservation(max: nat, run: seq<State>, trace: seq<Event>, i: nat, job: Job, w: nat, k: nat)
    requires IsRun(max, run, trace) && i < |run| && DistinctJobs(run[i].jobs) && job in run[i].jobs
    requires k < job.chunksize && 0 <= w * job.chunksize + k < job.totalCalls
    ensures w < |AllChunks(job)| && Places(run[i], AllChunks(job)[w]) == 1
    ensures forall c: Chunk :: c.job == job && w * job.chunksize + k in c.calls && Places(run[i], c) > 0 ==>
              c == AllChunks(job)[w]
  {
    InvRun(max, run, trace, i);
    CallInOneChunk(job, w, k);
    var chunk := AllChunks(job)[w];
    IssuedOnce(run[i].jobs, chunk);
    forall c: Chunk | c.job == job && w * job.chunksize + k in c.calls && Places(run[i], c) > 0
      ensures c == chunk
    {
      IssuedOnce(run[i].jobs, c);
      CountPositive(AllChunks(job), c);
    }
  }

  /** It makes no difference whether the monitor credits a chunk before the backend has
      answered or afterwards. */
  lemma CreditBeforeAnswer(max: nat, s: State, s': State, c: Chunk)
    ensures Next(max, s, s', CreditEarly(c)) <==> exists m :: Next(max, s, m, Accept(c)) && Next(max, m, s', Credit(c))
  {
    if Next(max, s, s', CreditEarly(c)) {
      var m := AnswerThenCredit(s, s', c);
      assert Next(max, s, m, Accept(c)) && Next(max, m, s', Credit(c));
    } else if m :| Next(max, s, m, Accept(c)) && Next(max, m, s', Credit(c)) {
      CreditAfterAnswer(s, m, s', c);
    }
  }

  lemma AnswerThenCredit(s: State, s': State, c: Chunk) returns (m: State)
    requires BackendStep(s, s', CreditEarly(c))
    ensures BackendStep(s, m, Accept(c)) && BackendStep(m, s', Credit(c))
  {
    m := s.(invoking := s.invoking - multiset{c}, active := s.active + multiset{c});
    assert m.active - multiset{c} == s.active;
  }

  lemma CreditAfterAnswer(s: State, m: State, s': State, c: Chunk)
    requires BackendStep(s, m, Accept(c)) && BackendStep(m, s', Credit(c))
    ensures BackendStep(s, s', CreditEarly(c))
  {
    assert m.active - multiset{c} == s.active;
  }
}

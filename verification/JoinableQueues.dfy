/** JoinableQueue (lithops/multiprocessing/queues.py): a semaphore that counts unfinished
    tasks, under a condition variable. Queue items themselves are not modelled. */
module JoinableQueues {
  import SemLocks
  import opened C = Conditions

  datatype Program =
    | Free
    | PutCount                            // put: about to release the counter
    | DoneTake | DoneCheck | DoneNotify   // task_done: acquire(False); test for 0; notify_all
    | JoinTest | JoinSleep                // join: test for 0; inside its one Condition.wait
    | Exit                                // about to leave the `with` block, also after an error

  datatype QueueState = QueueState(cond: C.State, unfinished: nat, program: map<Pid, Program>)

  predicate CondStep(s: QueueState, s': QueueState, p: Pid, a: Action) {
    C.Next(s.cond, s'.cond, p, a) && s'.unfinished == s.unfinished
  }

  predicate UnderLock(s: QueueState, s': QueueState, p: Pid) {
    p in s.cond.phase && s.cond.phase[p].Holding? && s'.cond == s.cond
  }

  predicate NextProgram(s: QueueState, s': QueueState, p: Pid, a: Action, from: Program, to: Program) {
    match from
    case Free => a == Acquire && CondStep(s, s', p, a) && (to.PutCount? || to.DoneTake? || to.JoinTest?)
    case PutCount =>
      && UnderLock(s, s', p) && to.Exit?
      && s'.unfinished == SemLocks.LuaRelease(s.unfinished, SemLocks.SEM_VALUE_MAX)
    case DoneTake =>
      && UnderLock(s, s', p)
      && if s.unfinished == 0 then to.Exit? && s'.unfinished == 0
         else to.DoneCheck? && s'.unfinished == s.unfinished - 1
    case DoneCheck =>
      && UnderLock(s, s', p) && s'.unfinished == s.unfinished
      && to == (if s.unfinished == 0 then DoneNotify else Exit)
    case DoneNotify =>
      && a in {List, Delete, Push, Finish} && CondStep(s, s', p, a)
      && to == (if a == Finish then Exit else DoneNotify)
    case JoinTest =>
      && UnderLock(s, s', p) && s'.unfinished == s.unfinished
      && to == (if s.unfinished != 0 then JoinSleep else Exit)
    case JoinSleep =>
      && a in {Enqueue, Unlock, Wake, Reacquire} && CondStep(s, s', p, a)
      && to == (if a == Reacquire then Exit else JoinSleep)
    case Exit => a == Release && CondStep(s, s', p, a) && to.Free?
  }

  predicate NextQueue(s: QueueState, s': QueueState, p: Pid, a: Action) {
    && p in s.program && p in s'.program
    && s'.program == s.program[p := s'.program[p]]
    && NextProgram(s, s', p, a, s.program[p], s'.program[p])
  }

  ghost predicate InitQueue(s: QueueState) {
    && C.Init(s.cond) && s.unfinished == 0 && s.program.Keys == s.cond.phase.Keys
    && forall p :: p in s.program ==> s.program[p] == Free
  }

  ghost predicate IsQueueRun(run: seq<QueueState>, trace: seq<Step>) {
    && |run| == |trace| + 1
    && InitQueue(run[0])
    && forall i :: 0 <= i < |trace| ==> NextQueue(run[i], run[i + 1], trace[i].p, trace[i].a)
  }

  // ----- The invariant

  predicate Fits(program: Program, ph: Phase) {
    match program
    case Free => ph.Outside?
    case DoneNotify => ph.Holding? || ph.Listed? || ph.Pushing?
    case JoinSleep => ph.Holding? || ph.Enqueued? || ph.Blocked? || ph.Woken?
    case _ => ph.Holding?
  }

  /** p has taken the last unfinished task and not yet deleted the notify list. */
  predicate AboutToWake(s: QueueState, p: Pid) {
    && p in s.program && p in s.cond.phase
    && (s.program[p].DoneCheck? || (s.program[p].DoneNotify? && !s.cond.phase[p].Pushing?))
  }

  ghost predicate QueueInv(s: QueueState) {
    && C.Inv(s.cond)
    && s.program.Keys == s.cond.phase.Keys
    && (forall p :: p in s.program ==> Local(s, s.program[p], s.cond.phase[p]))
    && (s.unfinished == 0 && s.cond.redis.waiters != [] ==> exists p :: AboutToWake(s, p))
    && s.unfinished <= SemLocks.SEM_VALUE_MAX
  }

  /** The part of the invariant that is about one process. */
  predicate Local(s: QueueState, program: Program, ph: Phase) {
    && Fits(program, ph)
    && (program.JoinSleep? && Owner(ph) ==> s.unfinished != 0)
    && (program.DoneNotify? ==> s.unfinished == 0)
  }

  lemma LocalStep(s: QueueState, s': QueueState, p: Pid, a: Action, from: Program, to: Program)
    requires p in s.cond.phase && Local(s, from, s.cond.phase[p])
    requires NextProgram(s, s', p, a, from, to)
    ensures s'.cond == s.cond || (s'.unfinished == s.unfinished && C.Next(s.cond, s'.cond, p, a))
    ensures p in s'.cond.phase && Local(s', to, s'.cond.phase[p])
    ensures s'.unfinished != s.unfinished ==> Owner(s.cond.phase[p])
    ensures s'.unfinished == 0 && s.unfinished != 0 ==> to.DoneCheck?
  {
  }

  /** Only a joiner extends the notify list, and only a last task_done empties it. */
  lemma WaitersChange(s: QueueState, s': QueueState, p: Pid, a: Action, from: Program, to: Program)
    requires p in s.cond.phase && Local(s, from, s.cond.phase[p])
    requires NextProgram(s, s', p, a, from, to)
    ensures s'.unfinished == 0 && s.unfinished == 0 && s'.cond.redis.waiters != [] ==> s.cond.redis.waiters != []
    ensures (forall h :: h in s.cond.redis.waiters ==> h in s'.cond.redis.waiters) || s.unfinished == 0
    ensures s'.cond.redis.waiters != [] && from.DoneCheck? ==> s.unfinished != 0 || to.DoneNotify?
    ensures s'.cond.redis.waiters != [] && from.DoneNotify? && !s.cond.phase[p].Pushing? ==>
              to.DoneNotify? && !s'.cond.phase[p].Pushing?
  {
  }

  lemma FitsStep(s: QueueState, s': QueueState, p: Pid, a: Action)
    requires QueueInv(s) && NextQueue(s, s', p, a)
    ensures C.Inv(s'.cond) && s'.program.Keys == s'.cond.phase.Keys
    ensures forall q :: q in s'.program ==> Local(s', s'.program[q], s'.cond.phase[q])
    ensures forall q :: q in s'.program && q != p ==>
              s'.program[q] == s.program[q] && s'.cond.phase[q] == s.cond.phase[q]
  {
    LocalStep(s, s', p, a, s.program[p], s'.program[p]);
    if s'.cond != s.cond {
      C.InvStep(s.cond, s'.cond, p, a);
    }
    forall q | q in s'.program
      ensures Local(s', s'.program[q], s'.cond.phase[q])
    {
      if q != p {
        assert Local(s, s.program[q], s.cond.phase[q]);
        assert s.program[q].DoneNotify? ==> Owner(s.cond.phase[q]);
      }
    }
  }

  lemma WaitersStep(s: QueueState, s': QueueState, p: Pid, a: Action)
    requires QueueInv(s) && NextQueue(s, s', p, a)
    ensures s'.unfinished == 0 && s'.cond.redis.waiters != [] ==> exists q :: AboutToWake(s', q)
  {
    FitsStep(s, s', p, a);
    LocalStep(s, s', p, a, s.program[p], s'.program[p]);
    WaitersChange(s, s', p, a, s.program[p], s'.program[p]);
    if s'.unfinished == 0 && s'.cond.redis.waiters != [] {
      if s.unfinished != 0 {
        assert AboutToWake(s', p);
      } else {
        var q :| AboutToWake(s, q);
        if q != p {
          assert s'.program[q] == s.program[q] && s'.cond.phase[q] == s.cond.phase[q];
        }
        assert AboutToWake(s', q);
      }
    }
  }

  lemma CountBounded(s: QueueState, s': QueueState, p: Pid, a: Action, from: Program, to: Program)
    requires s.unfinished <= SemLocks.SEM_VALUE_MAX && NextProgram(s, s', p, a, from, to)
    ensures s'.unfinished <= SemLocks.SEM_VALUE_MAX
  {
  }

  lemma QueueInvStep(s: QueueState, s': QueueState, p: Pid, a: Action)
    requires QueueInv(s) && NextQueue(s, s', p, a)
    ensures QueueInv(s')
  {
    FitsStep(s, s', p, a);
    WaitersStep(s, s', p, a);
    CountBounded(s, s', p, a, s.program[p], s'.program[p]);
  }

  lemma {:induction false} QueueInvRun(run: seq<QueueState>, trace: seq<Step>, i: nat)
    requires IsQueueRun(run, trace) && i < |run|
    ensures QueueInv(run[i])
  {
    if i == 0 {
      C.InvRun([run[0].cond], [], 0);
    } else {
      QueueInvRun(run, trace, i - 1);
      QueueInvStep(run[i - 1], run[i - 1 + 1], trace[i - 1].p, trace[i - 1].a);
    }
  }

  // ----- What it means

  /** No joiner is stranded: whenever the lock is free and nothing is unfinished, the notify
      list is empty and every process blocked in join already has its token. */
  lemma NobodyStranded(run: seq<QueueState>, trace: seq<Step>, i: nat)
    requires IsQueueRun(run, trace) && i < |run|
    requires run[i].unfinished == 0 && run[i].cond.redis.lock == 1
    ensures run[i].cond.redis.waiters == []
    ensures forall p, h :: p in run[i].cond.phase && run[i].cond.phase[p] == Blocked(h) ==>
              run[i].cond.redis.tokens[h] == 1
  {
    QueueInvRun(run, trace, i);
    var c := run[i].cond;
    assert forall p :: AboutToWake(run[i], p) ==> Owner(c.phase[p]);
    forall p, h | p in c.phase && c.phase[p] == Blocked(h)
      ensures c.redis.tokens[h] == 1
    {
      CapturedByNobody(c);
      assert Copies(c, h) == if Awaited(c, h) then 1 else 0;
      assert WaitsOn(c.phase[p], h);
    }
  }

  // ----- Counting the calls of a run

  /** What the process of step m is about to do there. */
  function Doing(run: seq<QueueState>, trace: seq<Step>, m: nat): Program
    requires m < |run| && m < |trace|
  {
    if trace[m].p in run[m].program then run[m].program[trace[m].p] else Free
  }

  /** The puts that have released the counter in the first i steps. */
  function Puts(run: seq<QueueState>, trace: seq<Step>, i: nat): nat
    requires i <= |trace| < |run|
  {
    if i == 0 then 0
    else Puts(run, trace, i - 1) + if Doing(run, trace, i - 1).PutCount? then 1 else 0
  }

  /** Those of them that found the semaphore at its maximum. */
  function Dropped(run: seq<QueueState>, trace: seq<Step>, i: nat): nat
    requires i <= |trace| < |run|
  {
    if i == 0 then 0
    else
      Dropped(run, trace, i - 1)
      + if Doing(run, trace, i - 1).PutCount? && run[i - 1].unfinished >= SemLocks.SEM_VALUE_MAX then 1 else 0
  }

  /** The calls of task_done that found something unfinished; the others raise an error. */
  function Dones(run: seq<QueueState>, trace: seq<Step>, i: nat): nat
    requires i <= |trace| < |run|
  {
    if i == 0 then 0
    else
      Dones(run, trace, i - 1)
      + if Doing(run, trace, i - 1).DoneTake? && run[i - 1].unfinished > 0 then 1 else 0
  }

  lemma CountStep(s: QueueState, s': QueueState, p: Pid, a: Action, from: Program, to: Program)
    requires s.unfinished <= SemLocks.SEM_VALUE_MAX && NextProgram(s, s', p, a, from, to)
    ensures s'.unfinished - s.unfinished ==
            (if from.PutCount? && s.unfinished < SemLocks.SEM_VALUE_MAX then 1 else 0)
            - (if from.DoneTake? && s.unfinished > 0 then 1 else 0)
  {
  }

  lemma {:induction false} CallsCounted(run: seq<QueueState>, trace: seq<Step>, i: nat)
    requires IsQueueRun(run, trace) && i < |run|
    ensures run[i].unfinished + Dones(run, trace, i) + Dropped(run, trace, i) == Puts(run, trace, i)
  {
    if i > 0 {
      var l := i - 1;
      CallsCounted(run, trace, l);
      QueueInvRun(run, trace, l);
      assert NextQueue(run[l], run[l + 1], trace[l].p, trace[l].a);
      CountStep(run[l], run[l + 1], trace[l].p, trace[l].a, Doing(run, trace, l), run[l + 1].program[trace[l].p]);
    }
  }

  /** The counter is the number of puts less that of the task_dones exactly as long as no
      put found it at its maximum, and it never passes that maximum. */
  lemma {:induction false} UnfinishedExact(run: seq<QueueState>, trace: seq<Step>, i: nat)
    requires IsQueueRun(run, trace) && i < |run|
    ensures run[i].unfinished <= SemLocks.SEM_VALUE_MAX
    ensures run[i].unfinished == Puts(run, trace, i) - Dones(run, trace, i) <==> Dropped(run, trace, i) == 0
    ensures run[i].unfinished + Dropped(run, trace, i) == Puts(run, trace, i) - Dones(run, trace, i)
  {
    QueueInvRun(run, trace, i);
    CallsCounted(run, trace, i);
  }

  ghost predicate ZeroWithin(run: seq<QueueState>, i: nat, m: nat)
    requires m < |run|
  {
    exists k {:trigger run[k]} :: i < k <= m && run[k].unfinished == 0
  }

  predicate Joining(s: QueueState, p: Pid) {
    p in s.program && (s.program[p].JoinTest? || s.program[p].JoinSleep?)
  }

  /** Until nothing has been unfinished, a joiner's handle stays in the notify list. */
  ghost predicate NotYetNotified(s: QueueState, p: Pid) {
    && p in s.program && p in s.cond.phase
    && (s.program[p].JoinSleep? ==>
          && !s.cond.phase[p].Woken?
          && forall h :: WaitsOn(s.cond.phase[p], h) ==> h in s.cond.redis.waiters)
  }

  lemma NotYetNotifiedStep(s: QueueState, s': QueueState, q: Pid, a: Action, p: Pid)
    requires QueueInv(s) && NextQueue(s, s', q, a) && Joining(s, p) && Joining(s', p)
    requires NotYetNotified(s, p)
    ensures s.unfinished == 0 || NotYetNotified(s', p)
  {
    FitsStep(s, s', q, a);
    WaitersChange(s, s', q, a, s.program[q], s'.program[q]);
    if q == p && s.unfinished != 0 {
      assert Local(s, s.program[p], s.cond.phase[p]);
      SleeperStep(s, s', p, a);
    }
  }

  lemma SleeperStep(s: QueueState, s': QueueState, p: Pid, a: Action)
    requires QueueInv(s) && NextQueue(s, s', p, a) && Joining(s, p) && Joining(s', p)
    requires NotYetNotified(s, p)
    ensures p in s'.cond.phase && NotYetNotified(s', p)
  {
    var ph := s.cond.phase[p];
    assert Local(s, s.program[p], ph);
    if ph.Blocked? {
      assert WaitsOn(ph, ph.handle);
      ListedHasNoToken(s.cond, p, ph.handle);
    }
  }

  lemma JoinEntry(s: QueueState, s': QueueState, q: Pid, a: Action, p: Pid)
    requires QueueInv(s) && NextQueue(s, s', q, a) && p in s.program && s.program[p].Free? && Joining(s', p)
    ensures NotYetNotified(s', p)
  {
    FitsStep(s, s', q, a);
  }

  /** The run as far as it matters here: step m leads from run[m] to run[m + 1]. */
  lemma RunStep(run: seq<QueueState>, trace: seq<Step>, m: nat)
    requires IsQueueRun(run, trace) && m < |trace|
    ensures QueueInv(run[m]) && NextQueue(run[m], run[m + 1], trace[m].p, trace[m].a)
  {
    QueueInvRun(run, trace, m);
  }

  lemma {:induction false} StillJoining(run: seq<QueueState>, trace: seq<Step>, i: nat, m: nat, p: Pid)
    requires IsQueueRun(run, trace) && i < m < |run|
    requires p in run[i].program && run[i].program[p].Free?
    requires forall k :: i < k <= m ==> Joining(run[k], p)
    ensures ZeroWithin(run, i, m) || NotYetNotified(run[m], p)
    decreases m
  {
    var l := m - 1;
    RunStep(run, trace, l);
    assert Joining(run[m], p);
    if l == i {
      JoinEntry(run[l], run[m], trace[l].p, trace[l].a, p);
    } else {
      assert Joining(run[l], p);
      StillJoining(run, trace, i, l, p);
      if !ZeroWithin(run, i, l) {
        NotYetNotifiedStep(run[l], run[m], trace[l].p, trace[l].a, p);
      }
    }
  }

  /** join waits only once and does not test again; still, it returns only if nothing was
      unfinished at some moment during the call. */
  lemma JoinSawZero(run: seq<QueueState>, trace: seq<Step>, i: nat, j: nat, p: Pid)
    requires IsQueueRun(run, trace) && i < j < |trace|
    requires p in run[i].program && run[i].program[p].Free?
    requires forall k :: i < k <= j ==> Joining(run[k], p)
    requires p in run[j + 1].program && run[j + 1].program[p].Exit?
    ensures exists k :: i < k <= j && run[k].unfinished == 0
  {
    QueueInvRun(run, trace, j);
    StillJoining(run, trace, i, j, p);
    assert Joining(run[j], p);
    assert NextQueue(run[j], run[j + 1], trace[j].p, trace[j].a);
    assert p == trace[j].p;
    if run[j].program[p].JoinTest? {
      assert run[j].unfinished == 0;
    } else {
      assert run[j].cond.phase[p].Woken?;
    }
  }

  // ----- What a call does that nobody disturbs

  /** p can get from s to s' by steps of its own. */
  ghost predicate QueueAlone(s: QueueState, s': QueueState, p: Pid) {
    exists run, actions :: QueueAloneVia(s, s', p, run, actions)
  }

  ghost predicate QueueAloneVia(s: QueueState, s': QueueState, p: Pid, run: seq<QueueState>, actions: seq<Action>) {
    && |run| == |actions| + 1 && run[0] == s && run[|actions|] == s'
    && forall i :: 0 <= i < |actions| ==> NextQueue(run[i], run[i + 1], p, actions[i])
  }

  lemma QueueStays(s: QueueState, p: Pid)
    ensures QueueAlone(s, s, p)
  {
    assert QueueAloneVia(s, s, p, [s], []);
  }

  lemma QueueThen(s0: QueueState, s: QueueState, s': QueueState, p: Pid, a: Action)
    requires QueueAlone(s0, s, p) && NextQueue(s, s', p, a)
    ensures QueueAlone(s0, s', p)
  {
    var run, actions :| QueueAloneVia(s0, s, p, run, actions);
    assert QueueAloneVia(s0, s', p, run + [s'], actions + [a]);
  }

  /** The state with p at another point of its program and in another phase. */
  function At(s: QueueState, p: Pid, to: Program, ph: Phase, v: Redis): QueueState {
    s.(cond := C.Moved(s.cond, p, ph, v), program := s.program[p := to])
  }

  lemma AtTwice(s: QueueState, p: Pid, to: Program, ph: Phase, v: Redis, to': Program, ph': Phase, v': Redis)
    ensures At(At(s, p, to, ph, v), p, to', ph', v') == At(s, p, to', ph', v')
  {
    assert s.program[p := to][p := to'] == s.program[p := to'];
    assert s.cond.phase[p := ph][p := ph'] == s.cond.phase[p := ph'];
  }

  /** A step under the lock that changes the counter only. */
  function Counted(s: QueueState, p: Pid, to: Program, unfinished: nat): QueueState {
    s.(unfinished := unfinished, program := s.program[p := to])
  }

  lemma CondThen(s0: QueueState, s: QueueState, p: Pid, to: Program, ph: Phase, v: Redis, a: Action)
    requires QueueAlone(s0, s, p) && p in s.program && p in s.cond.phase
    requires C.Command(s.cond.redis, v, s.cond.phase[p], ph, a)
    requires NextProgram(s, At(s, p, to, ph, v), p, a, s.program[p], to)
    ensures QueueAlone(s0, At(s, p, to, ph, v), p)
  {
    QueueThen(s0, s, At(s, p, to, ph, v), p, a);
  }

  /** p is in the lock with its program at `at`, as it is when a call has just begun. */
  predicate Inside(s: QueueState, p: Pid, at: Program) {
    p in s.program && s.program[p] == at && p in s.cond.phase && s.cond.phase[p].Holding? && s.cond.redis.lock == 0
  }

  /** A call begins: p takes the lock for what it wants to do. */
  lemma Enters(s: QueueState, p: Pid, to: Program) returns (s': QueueState)
    requires p in s.program && s.program[p].Free? && p in s.cond.phase && s.cond.phase[p].Outside?
    requires s.cond.redis.lock == 1 && (to.PutCount? || to.DoneTake? || to.JoinTest?)
    ensures QueueAlone(s, s', p) && s' == At(s, p, to, Holding, s.cond.redis.(lock := 0)) && Inside(s', p, to)
  {
    QueueStays(s, p);
    s' := At(s, p, to, Holding, s.cond.redis.(lock := 0));
    CondThen(s, s, p, to, Holding, s.cond.redis.(lock := 0), Acquire);
  }

  /** The state with p out of its call again, and the lock free. */
  function Left(s: QueueState, p: Pid): QueueState {
    At(s, p, Free, Outside, s.cond.redis.(lock := 1))
  }

  lemma Leaves(s0: QueueState, s: QueueState, p: Pid)
    requires QueueAlone(s0, s, p) && Inside(s, p, Exit)
    ensures QueueAlone(s0, Left(s, p), p)
  {
    CondThen(s0, s, p, Free, Outside, s.cond.redis.(lock := 1), Release);
  }

  lemma {:induction false} PushesOn(s0: QueueState, s: QueueState, p: Pid) returns (s': QueueState)
    requires QueueAlone(s0, s, p) && p in s.program && s.program[p].DoneNotify?
    requires p in s.cond.phase && s.cond.phase[p].Pushing?
    ensures QueueAlone(s0, s', p)
    ensures s' == At(s, p, DoneNotify, Pushing([]),
                     s.cond.redis.(tokens := s.cond.redis.tokens + multiset(s.cond.phase[p].targets)))
    decreases |s.cond.phase[p].targets|
  {
    var hs, v := s.cond.phase[p].targets, s.cond.redis;
    s' := At(s, p, DoneNotify, Pushing([]), v.(tokens := v.tokens + multiset(hs)));
    if hs == [] {
      assert v.tokens + multiset(hs) == v.tokens;
      assert s' == s;
    } else {
      var pushed := v.(tokens := v.tokens + multiset{hs[0]});
      var m := At(s, p, DoneNotify, Pushing(hs[1..]), pushed);
      CondThen(s0, s, p, DoneNotify, Pushing(hs[1..]), pushed, Push);
      var e := PushesOn(s0, m, p);
      OneByOne(v.tokens, hs);
      AtTwice(s, p, DoneNotify, Pushing(hs[1..]), pushed, DoneNotify, Pushing([]), e.cond.redis);
    }
  }

  /** put: one more is unfinished, up to the semaphore's maximum. */
  lemma PutAlone(s: QueueState, p: Pid)
    requires Inside(s, p, PutCount)
    ensures QueueAlone(s, Left(s, p).(unfinished := SemLocks.LuaRelease(s.unfinished, SemLocks.SEM_VALUE_MAX)), p)
  {
    var x := Counted(s, p, Exit, SemLocks.LuaRelease(s.unfinished, SemLocks.SEM_VALUE_MAX));
    QueueStays(s, p);
    QueueThen(s, s, x, p, Acquire);
    Leaves(s, x, p);
    assert s.program[p := Exit][p := Free] == s.program[p := Free];
  }

  /** task_done with nothing unfinished, or not with the last one: no waiter is told. */
  lemma DoneAlone(s: QueueState, p: Pid)
    requires Inside(s, p, DoneTake) && s.unfinished != 1
    ensures QueueAlone(s, Left(s, p).(unfinished := if s.unfinished == 0 then 0 else s.unfinished - 1), p)
  {
    QueueStays(s, p);
    var x := Counted(s, p, Exit, if s.unfinished == 0 then 0 else s.unfinished - 1);
    if s.unfinished == 0 {
      QueueThen(s, s, x, p, Acquire);
    } else {
      var c := Counted(s, p, DoneCheck, s.unfinished - 1);
      QueueThen(s, s, c, p, Acquire);
      assert c.program[p := Exit] == x.program;
      QueueThen(s, c, x, p, Acquire);
    }
    Leaves(s, x, p);
    assert s.program[p := Exit][p := Free] == s.program[p := Free];
  }

  /** The last task_done: every joiner listed has a token, and none is listed any more. */
  lemma LastDoneAlone(s: QueueState, p: Pid)
    requires Inside(s, p, DoneTake) && s.unfinished == 1
    ensures var v := s.cond.redis;
            var woken := Redis(1, [], v.tokens + multiset(v.waiters), v.nextHandle);
            QueueAlone(s, At(s, p, Free, Outside, woken).(unfinished := 0), p)
  {
    var v, hs := s.cond.redis, s.cond.redis.waiters;
    QueueStays(s, p);
    var c, n := Counted(s, p, DoneCheck, 0), Counted(s, p, DoneNotify, 0);
    QueueThen(s, s, c, p, Acquire);
    assert c.program[p := DoneNotify] == n.program;
    QueueThen(s, c, n, p, Acquire);
    var l := At(n, p, DoneNotify, Listed(hs), v);
    CondThen(s, n, p, DoneNotify, Listed(hs), v, List);
    var d := At(l, p, DoneNotify, Pushing(hs), v.(waiters := []));
    CondThen(s, l, p, DoneNotify, Pushing(hs), v.(waiters := []), Delete);
    var e := PushesOn(s, d, p);
    var x := At(e, p, Exit, Holding, e.cond.redis);
    CondThen(s, e, p, Exit, Holding, e.cond.redis, Finish);
    Leaves(s, x, p);
    assert Left(x, p).program == s.program[p := Free];
    assert Left(x, p).cond.phase == s.cond.phase[p := Outside];
  }

  /** join: with nothing unfinished it returns at once; otherwise it blocks on a handle of its
      own, listed last, and leaves the lock. */
  lemma JoinAlone(s: QueueState, p: Pid)
    requires Inside(s, p, JoinTest)
    ensures var h, v := s.cond.redis.nextHandle, s.cond.redis;
            QueueAlone(s, if s.unfinished == 0 then Left(s, p)
                          else At(s, p, JoinSleep, Blocked(h), Redis(1, v.waiters + [h], v.tokens, h + 1)), p)
  {
    var h, v := s.cond.redis.nextHandle, s.cond.redis;
    QueueStays(s, p);
    if s.unfinished == 0 {
      var x := Counted(s, p, Exit, 0);
      QueueThen(s, s, x, p, Acquire);
      Leaves(s, x, p);
      assert s.program[p := Exit][p := Free] == s.program[p := Free];
    } else {
      var t := Counted(s, p, JoinSleep, s.unfinished);
      QueueThen(s, s, t, p, Acquire);
      var listed := Redis(0, v.waiters + [h], v.tokens, h + 1);
      var q := At(t, p, JoinSleep, Enqueued(h), listed);
      CondThen(s, t, p, JoinSleep, Enqueued(h), listed, Enqueue);
      CondThen(s, q, p, JoinSleep, Blocked(h), listed.(lock := 1), Unlock);
      AtTwice(t, p, JoinSleep, Enqueued(h), listed, JoinSleep, Blocked(h), listed.(lock := 1));
      assert t.program[p := JoinSleep] == s.program[p := JoinSleep];
    }
  }

  /** A joiner with its token there returns, without testing again. */
  lemma JoinGoesOn(s: QueueState, p: Pid)
    requires p in s.program && s.program[p].JoinSleep? && p in s.cond.phase && s.cond.phase[p].Blocked?
    requires s.cond.redis.lock == 1 && s.cond.phase[p].handle in s.cond.redis.tokens
    ensures var v := s.cond.redis;
            QueueAlone(s, At(s, p, Free, Outside, v.(tokens := v.tokens - multiset{s.cond.phase[p].handle})), p)
  {
    var v := s.cond.redis;
    var taken := v.(tokens := v.tokens - multiset{s.cond.phase[p].handle});
    QueueStays(s, p);
    CondThen(s, s, p, JoinSleep, Woken, taken, Wake);
    var w := At(s, p, JoinSleep, Woken, taken);
    CondThen(s, w, p, Exit, Holding, taken.(lock := 0), Reacquire);
    var x := At(w, p, Exit, Holding, taken.(lock := 0));
    Leaves(s, x, p);
    assert Left(x, p).program == s.program[p := Free];
    assert Left(x, p).cond.phase == s.cond.phase[p := Outside];
  }
}

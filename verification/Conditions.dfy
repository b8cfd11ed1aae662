/** The condition variable over Redis lists (lithops/multiprocessing/synchronize.py,
    Condition): any number of processes, every Redis command one step, waits without
    timeout and with a fresh handle each. */
module Conditions {
  import SemLocks

  type Pid = SemLocks.Pid
  type Handle = nat

  /** Where one process stands. `Listed` and `Pushing` are the inside of notify_all, whose
      `lrange`, `delete` and pushes are separate commands; `Popped` is the inside of notify. */
  datatype Phase =
    | Outside
    | Holding
    | Enqueued(handle: Handle)
    | Blocked(handle: Handle)
    | Woken
    | Popped(target: Handle)
    | Listed(targets: seq<Handle>)
    | Pushing(targets: seq<Handle>)

  /** The Redis side: `lock` is the length of the lock's token list, `waiters` the notify
      list, `tokens` what was pushed to wait handles and not yet popped. */
  datatype Redis = Redis(lock: nat, waiters: seq<Handle>, tokens: multiset<Handle>, nextHandle: Handle)

  datatype State = State(redis: Redis, phase: map<Pid, Phase>)

  datatype Action =
    | Acquire | Release
    | Enqueue | Unlock | Wake | Reacquire
    | NotifyPop | NotifyPush
    | List | Delete | Push | Finish

  predicate Owner(ph: Phase) {
    ph.Holding? || ph.Enqueued? || ph.Popped? || ph.Listed? || ph.Pushing?
  }

  predicate WaitsOn(ph: Phase, h: Handle) {
    ph == Enqueued(h) || ph == Blocked(h)
  }

  /** Handles a notifier has taken out of the notify list and not yet pushed to. */
  function Work(ph: Phase): seq<Handle> {
    match ph
    case Popped(h) => [h]
    case Pushing(hs) => hs
    case _ => []
  }

  /** One command of a process whose phase goes from ph to ph'. */
  predicate Command(v: Redis, v': Redis, ph: Phase, ph': Phase, a: Action) {
    match a
    case Acquire => ph.Outside? && ph'.Holding? && v.lock > 0 && v' == v.(lock := v.lock - 1)
    case Release => ph.Holding? && ph'.Outside? && v' == v.(lock := SemLocks.LuaRelease(v.lock, 1))
    case Enqueue =>
      && ph.Holding? && ph' == Enqueued(v.nextHandle)
      && v' == v.(waiters := v.waiters + [v.nextHandle], nextHandle := v.nextHandle + 1)
    case Unlock => ph.Enqueued? && ph' == Blocked(ph.handle) && v' == v.(lock := SemLocks.LuaRelease(v.lock, 1))
    case Wake =>
      ph.Blocked? && ph'.Woken? && ph.handle in v.tokens && v' == v.(tokens := v.tokens - multiset{ph.handle})
    case Reacquire => ph.Woken? && ph'.Holding? && v.lock > 0 && v' == v.(lock := v.lock - 1)
    case NotifyPop =>
      && ph.Holding?
      && if v.waiters == [] then ph' == ph && v' == v
         else ph' == Popped(v.waiters[0]) && v' == v.(waiters := v.waiters[1..])
    case NotifyPush => ph.Popped? && ph'.Holding? && v' == v.(tokens := v.tokens + multiset{ph.target})
    case List => ph.Holding? && ph' == Listed(v.waiters) && v' == v
    case Delete => ph.Listed? && ph' == Pushing(ph.targets) && v' == v.(waiters := [])
    case Push =>
      && ph.Pushing? && ph.targets != [] && ph' == Pushing(ph.targets[1..])
      && v' == v.(tokens := v.tokens + multiset{ph.targets[0]})
    case Finish => ph.Pushing? && ph.targets == [] && ph'.Holding? && v' == v
  }

  predicate Next(s: State, s': State, p: Pid, a: Action) {
    && p in s.phase && p in s'.phase
    && s'.phase == s.phase[p := s'.phase[p]]
    && Command(s.redis, s'.redis, s.phase[p], s'.phase[p], a)
  }

  predicate Init(s: State) {
    && s.redis.lock == 1 && s.redis.waiters == [] && s.redis.tokens == multiset{}
    && forall p :: p in s.phase ==> s.phase[p] == Outside
  }

  datatype Step = Step(p: Pid, a: Action)

  ghost predicate IsRun(run: seq<State>, trace: seq<Step>) {
    && |run| == |trace| + 1
    && Init(run[0])
    && forall i :: 0 <= i < |trace| ==> Next(run[i], run[i + 1], trace[i].p, trace[i].a)
  }

  // ----- The invariant

  /** The lock's list holds one token exactly when no process owns the lock. */
  ghost predicate Exclusive(s: State) {
    && s.redis.lock <= 1
    && (s.redis.lock == 0 <==> exists p :: p in s.phase && Owner(s.phase[p]))
    && forall p, q :: p in s.phase && q in s.phase && Owner(s.phase[p]) && Owner(s.phase[q]) ==> p == q
  }

  ghost predicate Awaited(s: State, h: Handle) {
    exists p :: p in s.phase && WaitsOn(s.phase[p], h)
  }

  /** The work of the one notifier that has any. */
  ghost function Captured(s: State): seq<Handle> {
    if exists p :: p in s.phase && Work(s.phase[p]) != [] then
      var p :| p in s.phase && Work(s.phase[p]) != [];
      Work(s.phase[p])
    else []
  }

  function Count(hs: seq<Handle>, h: Handle): nat {
    if hs == [] then 0 else (if hs[0] == h then 1 else 0) + Count(hs[1..], h)
  }

  /** How many copies of a handle there are: in the notify list, captured, or as tokens. */
  ghost function Copies(s: State, h: Handle): nat {
    Count(s.redis.waiters, h) + Count(Captured(s), h) + s.redis.tokens[h]
  }

  /** Every awaited handle has exactly one copy, any other handle has none. */
  ghost predicate OneCopyEach(s: State) {
    forall h: Handle :: Copies(s, h) == if Awaited(s, h) then 1 else 0
  }

  ghost predicate HandlesFresh(s: State) {
    && (forall p: Pid, h: Handle :: p in s.phase && WaitsOn(s.phase[p], h) ==> h < s.redis.nextHandle)
    && forall p: Pid, q: Pid, h: Handle ::
         p in s.phase && q in s.phase && WaitsOn(s.phase[p], h) && WaitsOn(s.phase[q], h) ==> p == q
  }

  /** Between lrange and delete the captured list is still the whole notify list. */
  ghost predicate ListedCurrent(s: State) {
    forall p :: p in s.phase && s.phase[p].Listed? ==> s.phase[p].targets == s.redis.waiters
  }

  ghost predicate Inv(s: State) {
    Exclusive(s) && HandlesFresh(s) && OneCopyEach(s) && ListedCurrent(s)
  }

  lemma CapturedByOwner(s: State, p: Pid)
    requires Exclusive(s) && p in s.phase && Owner(s.phase[p])
    ensures Captured(s) == Work(s.phase[p])
  {
  }

  lemma CapturedByNobody(s: State)
    requires Exclusive(s) && s.redis.lock == 1
    ensures Captured(s) == []
  {
  }

  lemma ExclusiveStep(s: State, s': State, p: Pid, a: Action)
    requires Exclusive(s) && Next(s, s', p, a)
    ensures Exclusive(s')
  {
    assert p in s'.phase;
    forall q | q in s'.phase && q != p
      ensures q in s.phase && s'.phase[q] == s.phase[q]
    {
    }
    if Owner(s'.phase[p]) {
      assert s'.redis.lock == 0;
    } else {
      assert s'.redis.lock == 1 ==> !exists q :: q in s'.phase && Owner(s'.phase[q]);
      if s'.redis.lock == 0 {
        var q :| q in s.phase && Owner(s.phase[q]);
        assert q in s'.phase && Owner(s'.phase[q]);
      }
    }
  }

  /** What one step does to the captured work and to the set of awaited handles. */
  lemma CapturedStep(s: State, s': State, p: Pid, a: Action)
    requires Exclusive(s) && Next(s, s', p, a)
    ensures Captured(s') == if Owner(s.phase[p]) then Work(s'.phase[p]) else Captured(s)
    ensures Owner(s.phase[p]) ==> Captured(s) == Work(s.phase[p])
  {
    ExclusiveStep(s, s', p, a);
    if Owner(s.phase[p]) {
      CapturedByOwner(s, p);
      if Owner(s'.phase[p]) {
        CapturedByOwner(s', p);
      } else {
        CapturedByNobody(s');
      }
    } else if Owner(s'.phase[p]) {
      CapturedByOwner(s', p);
      CapturedByNobody(s);
    } else if s.redis.lock == 1 {
      CapturedByNobody(s);
      CapturedByNobody(s');
    } else {
      var q :| q in s.phase && Owner(s.phase[q]);
      CapturedByOwner(s, q);
      CapturedByOwner(s', q);
    }
  }

  lemma AwaitedStep(s: State, s': State, p: Pid, a: Action, h: Handle)
    requires HandlesFresh(s) && Next(s, s', p, a)
    ensures Awaited(s', h) <==>
              || (a == Enqueue && h == s.redis.nextHandle)
              || (Awaited(s, h) && !(a == Wake && h == s.phase[p].handle))
  {
    assert p in s'.phase;
    if Awaited(s, h) {
      var q :| q in s.phase && WaitsOn(s.phase[q], h);
      assert q in s'.phase && (q != p ==> s'.phase[q] == s.phase[q]);
    }
    if Awaited(s', h) {
      var q :| q in s'.phase && WaitsOn(s'.phase[q], h);
      assert q in s.phase && (q != p ==> s'.phase[q] == s.phase[q]);
      if q == p {
        assert a == Enqueue || WaitsOn(s.phase[p], h);
      } else {
        assert WaitsOn(s.phase[q], h);
      }
    }
  }

  lemma {:induction false} CountAppend(hs: seq<Handle>, x: Handle, h: Handle)
    ensures Count(hs + [x], h) == Count(hs, h) + if x == h then 1 else 0
  {
    if hs == [] {
      assert hs + [x] == [x];
    } else {
      CountAppend(hs[1..], x, h);
      assert (hs + [x])[1..] == hs[1..] + [x];
    }
  }

  lemma {:induction false} CountPositive(hs: seq<Handle>, h: Handle)
    ensures Count(hs, h) > 0 <==> h in hs
  {
    if hs != [] {
      CountPositive(hs[1..], h);
      assert hs == [hs[0]] + hs[1..];
    }
  }

  /** A step moves copies around; only enqueuing makes one and only waking uses one up. */
  lemma CopiesStep(s: State, s': State, p: Pid, a: Action, h: Handle)
    requires Exclusive(s) && ListedCurrent(s) && Next(s, s', p, a)
    ensures Copies(s', h) ==
              Copies(s, h)
              + (if a == Enqueue && h == s.redis.nextHandle then 1 else 0)
              - (if a == Wake && h == s.phase[p].handle then 1 else 0)
  {
    CapturedStep(s, s', p, a);
    CopiesMove(s.redis, s'.redis, s.phase[p], s'.phase[p], a, h);
  }

  lemma CopiesMove(v: Redis, v': Redis, ph: Phase, ph': Phase, a: Action, h: Handle)
    requires Command(v, v', ph, ph', a)
    requires ph.Listed? ==> ph.targets == v.waiters
    ensures Count(v'.waiters, h) + Count(Work(ph'), h) + v'.tokens[h] ==
              Count(v.waiters, h) + Count(Work(ph), h) + v.tokens[h]
              + (if a == Enqueue && h == v.nextHandle then 1 else 0)
              - (if a == Wake && h == ph.handle then 1 else 0)
  {
    if a == Enqueue {
      CountAppend(v.waiters, v.nextHandle, h);
    }
  }

  lemma HandlesFreshStep(s: State, s': State, p: Pid, a: Action)
    requires HandlesFresh(s) && Next(s, s', p, a)
    ensures HandlesFresh(s')
  {
    assert s.redis.nextHandle <= s'.redis.nextHandle;
    assert forall q :: q in s'.phase && q != p ==> q in s.phase && s'.phase[q] == s.phase[q];
    forall h: Handle | WaitsOn(s'.phase[p], h)
      ensures WaitsOn(s.phase[p], h) || h == s.redis.nextHandle < s'.redis.nextHandle
    {
    }
  }

  lemma ListedCurrentStep(s: State, s': State, p: Pid, a: Action)
    requires Exclusive(s) && ListedCurrent(s) && Next(s, s', p, a)
    ensures ListedCurrent(s')
  {
    ExclusiveStep(s, s', p, a);
    forall q | q in s'.phase && s'.phase[q].Listed?
      ensures s'.phase[q].targets == s'.redis.waiters
    {
      if q != p {
        assert s.phase[q] == s'.phase[q] && Owner(s.phase[q]);
        assert !Owner(s.phase[p]);
      }
    }
  }

  lemma InvStep(s: State, s': State, p: Pid, a: Action)
    requires Inv(s) && Next(s, s', p, a)
    ensures Inv(s')
  {
    ExclusiveStep(s, s', p, a);
    HandlesFreshStep(s, s', p, a);
    ListedCurrentStep(s, s', p, a);
    forall h: Handle
      ensures Copies(s', h) == if Awaited(s', h) then 1 else 0
    {
      AwaitedStep(s, s', p, a, h);
      CopiesStep(s, s', p, a, h);
      NextHandleUnawaited(s);
    }
  }

  lemma NextHandleUnawaited(s: State)
    requires HandlesFresh(s)
    ensures !Awaited(s, s.redis.nextHandle)
  {
  }

  lemma {:induction false} InvRun(run: seq<State>, trace: seq<Step>, i: nat)
    requires IsRun(run, trace) && i < |run|
    ensures Inv(run[i])
  {
    if i == 0 {
      forall h: Handle
        ensures Copies(run[0], h) == 0 && !Awaited(run[0], h)
      {
      }
    } else {
      InvRun(run, trace, i - 1);
      InvStep(run[i - 1], run[i - 1 + 1], trace[i - 1].p, trace[i - 1].a);
    }
  }

  // ----- What it means

  /** No lost wake-up, state by state: a process between enqueuing and waking has its handle
      in exactly one place (the notify list, a running notifier's work, one token), once. */
  lemma NoLostWakeUp(run: seq<State>, trace: seq<Step>, i: nat, p: Pid, h: Handle)
    requires IsRun(run, trace) && i < |run|
    requires p in run[i].phase && WaitsOn(run[i].phase[p], h)
    ensures Count(run[i].redis.waiters, h) + Count(Captured(run[i]), h) + run[i].redis.tokens[h] == 1
    ensures Captured(run[i]) != [] ==>
              exists q :: q in run[i].phase && Owner(run[i].phase[q]) && Work(run[i].phase[q]) == Captured(run[i])
    ensures forall q :: q in run[i].phase && WaitsOn(run[i].phase[q], h) ==> q == p
  {
    InvRun(run, trace, i);
    assert Copies(run[i], h) == 1;
  }

  /** Two processes never own the lock at once. */
  lemma LockExclusive(run: seq<State>, trace: seq<Step>, i: nat, p: Pid, q: Pid)
    requires IsRun(run, trace) && i < |run|
    requires p in run[i].phase && q in run[i].phase && Owner(run[i].phase[p]) && Owner(run[i].phase[q])
    ensures p == q && run[i].redis.lock == 0
  {
    InvRun(run, trace, i);
  }

  /** A handle that left the notify list never comes back to it. */
  lemma {:induction false} GoneStaysGone(run: seq<State>, trace: seq<Step>, i: nat, j: nat, h: Handle)
    requires IsRun(run, trace) && i <= j < |run|
    requires h < run[i].redis.nextHandle && h !in run[i].redis.waiters
    ensures h < run[j].redis.nextHandle && h !in run[j].redis.waiters
    decreases j
  {
    if i < j {
      GoneStaysGone(run, trace, i, j - 1, h);
      assert Next(run[j - 1], run[j - 1 + 1], trace[j - 1].p, trace[j - 1].a);
    }
  }

  lemma WaiterHandlesOld(s: State, h: Handle)
    requires Inv(s) && h in s.redis.waiters
    ensures h < s.redis.nextHandle && Awaited(s, h)
  {
    CountPositive(s.redis.waiters, h);
    assert Copies(s, h) == if Awaited(s, h) then 1 else 0;
  }

  lemma ListedHasNoToken(s: State, p: Pid, h: Handle)
    requires Inv(s) && p in s.phase && WaitsOn(s.phase[p], h) && h in s.redis.waiters
    ensures h !in s.redis.tokens
  {
    CountPositive(s.redis.waiters, h);
    assert Copies(s, h) == if Awaited(s, h) then 1 else 0;
  }

  /** notify_all wakes everyone: if p runs lrange at step i, delete at step j and finishes at
      step k, then every handle listed at step i that is still awaited after step k has its
      token, so its waiter is not blocked any more. */
  lemma NotifyAllWakes(run: seq<State>, trace: seq<Step>, i: nat, j: nat, k: nat, p: Pid, h: Handle)
    requires IsRun(run, trace) && i < j < k < |trace|
    requires trace[i] == Step(p, List) && trace[j] == Step(p, Delete) && trace[k] == Step(p, Finish)
    requires h in run[i].redis.waiters
    ensures Awaited(run[k + 1], h) ==> run[k + 1].redis.tokens[h] == 1
    ensures h !in run[k + 1].redis.waiters && h !in Captured(run[k + 1])
  {
    InvRun(run, trace, i);
    InvRun(run, trace, k + 1);
    WaiterHandlesOld(run[i], h);
    assert Next(run[j], run[j + 1], p, Delete);
    OldHandles(run, trace, i, j + 1);
    GoneStaysGone(run, trace, j + 1, k + 1, h);
    assert Next(run[k], run[k + 1], p, Finish);
    CapturedByOwner(run[k + 1], p);
    CountPositive(run[k + 1].redis.waiters, h);
    assert Copies(run[k + 1], h) == if Awaited(run[k + 1], h) then 1 else 0;
  }

  lemma {:induction false} OldHandles(run: seq<State>, trace: seq<Step>, i: nat, j: nat)
    requires IsRun(run, trace) && i <= j < |run|
    ensures run[i].redis.nextHandle <= run[j].redis.nextHandle
    decreases j
  {
    if i < j {
      OldHandles(run, trace, i, j - 1);
      assert Next(run[j - 1], run[j - 1 + 1], trace[j - 1].p, trace[j - 1].a);
    }
  }

  /** A waiter can go on exactly when its handle is neither listed nor captured. */
  lemma BlockedOnlyWhileListed(run: seq<State>, trace: seq<Step>, i: nat, p: Pid, h: Handle)
    requires IsRun(run, trace) && i < |run|
    requires p in run[i].phase && run[i].phase[p] == Blocked(h)
    ensures (exists s' :: Next(run[i], s', p, Wake)) <==> h !in run[i].redis.waiters && h !in Captured(run[i])
  {
    InvRun(run, trace, i);
    var s := run[i];
    assert Copies(s, h) == 1;
    if h in s.redis.tokens {
      assert Next(s, State(s.redis.(tokens := s.redis.tokens - multiset{h}), s.phase[p := Woken]), p, Wake);
    }
    CountPositive(s.redis.waiters, h);
    CountPositive(Captured(s), h);
  }

  // ----- notify

  /** While p has popped a handle and not yet pushed to it, it owns the lock, so that nobody
      else touches the notify list. */
  lemma {:induction false} PoppedStays(run: seq<State>, trace: seq<Step>, i: nat, k: nat, p: Pid)
    requires IsRun(run, trace) && i <= k < |run|
    requires p in run[i].phase && run[i].phase[p].Popped?
    requires forall j :: i <= j < k ==> trace[j].p != p
    ensures p in run[k].phase && run[k].phase[p] == run[i].phase[p]
    ensures run[k].redis.waiters == run[i].redis.waiters
    decreases k
  {
    if i < k {
      var m := k - 1;
      PoppedStays(run, trace, i, m, p);
      InvRun(run, trace, m);
      assert Next(run[m], run[m + 1], trace[m].p, trace[m].a);
      assert Owner(run[m].phase[p]);
    }
  }

  /** notify wakes the process that has waited longest: if p pops at step i, a handle being
      listed, and k is its next step, then after step k exactly the first handle has left the
      notify list, and if its process still waits, it has its token. With nobody listed notify
      changes nothing. */
  lemma NotifyWakesFirst(run: seq<State>, trace: seq<Step>, i: nat, k: nat, p: Pid)
    requires IsRun(run, trace) && i < k < |trace|
    requires trace[i] == Step(p, NotifyPop) && trace[k].p == p
    requires forall j :: i < j < k ==> trace[j].p != p
    ensures run[i].redis.waiters == [] ==> run[i + 1] == run[i]
    ensures run[i].redis.waiters != [] ==>
              var h := run[i].redis.waiters[0];
              && p in run[k + 1].phase && run[k + 1].phase[p].Holding?
              && run[k + 1].redis.waiters == run[i].redis.waiters[1..]
              && h !in run[k + 1].redis.waiters
              && (Awaited(run[k + 1], h) ==> run[k + 1].redis.tokens[h] == 1)
  {
    assert Next(run[i], run[i + 1], p, NotifyPop);
    if run[i].redis.waiters != [] {
      var h := run[i].redis.waiters[0];
      PoppedStays(run, trace, i + 1, k, p);
      assert Next(run[k], run[k + 1], p, trace[k].a);
      InvRun(run, trace, i);
      InvRun(run, trace, k + 1);
      FirstOnce(run[i], h);
      CapturedByOwner(run[k + 1], p);
      CountPositive(run[k + 1].redis.waiters, h);
      assert Copies(run[k + 1], h) == if Awaited(run[k + 1], h) then 1 else 0;
    }
  }

  lemma FirstOnce(s: State, h: Handle)
    requires Inv(s) && s.redis.waiters != [] && h == s.redis.waiters[0]
    ensures h !in s.redis.waiters[1..]
  {
    assert Copies(s, h) <= 1;
    CountPositive(s.redis.waiters[1..], h);
  }

  // ----- What a call does that nobody disturbs

  /** p can get from s to s' by steps of its own. */
  ghost predicate Alone(s: State, s': State, p: Pid) {
    exists run, actions :: AloneVia(s, s', p, run, actions)
  }

  ghost predicate AloneVia(s: State, s': State, p: Pid, run: seq<State>, actions: seq<Action>) {
    && |run| == |actions| + 1 && run[0] == s && run[|actions|] == s'
    && forall i :: 0 <= i < |actions| ==> Next(run[i], run[i + 1], p, actions[i])
  }

  lemma AloneStays(s: State, p: Pid)
    ensures Alone(s, s, p)
  {
    assert AloneVia(s, s, p, [s], []);
  }

  /** The state with p somewhere else and another Redis side. */
  function Moved(s: State, p: Pid, ph: Phase, v: Redis): State {
    State(v, s.phase[p := ph])
  }

  lemma AloneThen(s0: State, s: State, p: Pid, ph: Phase, v: Redis, a: Action)
    requires Alone(s0, s, p) && p in s.phase && Command(s.redis, v, s.phase[p], ph, a)
    ensures Alone(s0, Moved(s, p, ph, v), p)
  {
    var s' := Moved(s, p, ph, v);
    var run, actions :| AloneVia(s0, s, p, run, actions);
    assert Next(s, s', p, a);
    AloneExtends(s0, s, s', p, run, actions, a);
  }

  lemma AloneExtends(s0: State, s: State, s': State, p: Pid, run: seq<State>, actions: seq<Action>, a: Action)
    requires AloneVia(s0, s, p, run, actions) && Next(s, s', p, a)
    ensures AloneVia(s0, s', p, run + [s'], actions + [a])
  {
  }

  /** wait up to its `blpop`: its handle is listed last and the lock is free again. */
  lemma WaitBegins(s: State, p: Pid)
    requires Exclusive(s) && p in s.phase && s.phase[p].Holding?
    ensures var h, v := s.redis.nextHandle, s.redis;
            Alone(s, Moved(s, p, Blocked(h), Redis(1, v.waiters + [h], v.tokens, h + 1)), p)
  {
    var h, v := s.redis.nextHandle, s.redis;
    var listed := Redis(0, v.waiters + [h], v.tokens, h + 1);
    var m := Moved(s, p, Enqueued(h), listed);
    AloneStays(s, p);
    AloneThen(s, s, p, Enqueued(h), listed, Enqueue);
    AloneThen(s, m, p, Blocked(h), listed.(lock := 1), Unlock);
    assert Moved(m, p, Blocked(h), listed.(lock := 1)).phase == s.phase[p := Blocked(h)];
  }

  /** wait from its `blpop` on: with its token there and the lock free it becomes the owner. */
  lemma WaitEnds(s: State, p: Pid)
    requires p in s.phase && s.phase[p].Blocked? && s.phase[p].handle in s.redis.tokens && s.redis.lock == 1
    ensures var v := s.redis;
            Alone(s, Moved(s, p, Holding, v.(lock := 0, tokens := v.tokens - multiset{s.phase[p].handle})), p)
  {
    var taken := s.redis.(tokens := s.redis.tokens - multiset{s.phase[p].handle});
    var m := Moved(s, p, Woken, taken);
    AloneStays(s, p);
    AloneThen(s, s, p, Woken, taken, Wake);
    AloneThen(s, m, p, Holding, taken.(lock := 0), Reacquire);
    assert Moved(m, p, Holding, taken.(lock := 0)).phase == s.phase[p := Holding];
  }

  /** Taking and giving back the lock. */
  lemma LockAlone(s: State, p: Pid)
    requires p in s.phase
    ensures s.phase[p].Outside? && s.redis.lock == 1 ==> Alone(s, Moved(s, p, Holding, s.redis.(lock := 0)), p)
    ensures s.phase[p].Holding? && s.redis.lock == 0 ==> Alone(s, Moved(s, p, Outside, s.redis.(lock := 1)), p)
  {
    AloneStays(s, p);
    if s.phase[p].Outside? && s.redis.lock == 1 {
      AloneThen(s, s, p, Holding, s.redis.(lock := 0), Acquire);
    } else if s.phase[p].Holding? && s.redis.lock == 0 {
      AloneThen(s, s, p, Outside, s.redis.(lock := 1), Release);
    }
  }

  /** notify: the process listed first gets a token, and is listed no more. */
  lemma NotifyAlone(s: State, p: Pid)
    requires p in s.phase && s.phase[p].Holding? && s.redis.waiters != []
    ensures var v := s.redis;
            Alone(s, State(v.(waiters := v.waiters[1..], tokens := v.tokens + multiset{v.waiters[0]}), s.phase), p)
  {
    var h, v := s.redis.waiters[0], s.redis;
    var popped := v.(waiters := v.waiters[1..]);
    var m := Moved(s, p, Popped(h), popped);
    var pushed := popped.(tokens := v.tokens + multiset{h});
    AloneStays(s, p);
    AloneThen(s, s, p, Popped(h), popped, NotifyPop);
    AloneThen(s, m, p, Holding, pushed, NotifyPush);
    assert Moved(m, p, Holding, pushed).phase == s.phase;
  }

  lemma {:induction false} PushesAlone(s0: State, s: State, p: Pid) returns (s': State)
    requires Alone(s0, s, p) && p in s.phase && s.phase[p].Pushing?
    ensures Alone(s0, s', p) && s'.phase == s.phase[p := Pushing([])]
    ensures s'.redis == s.redis.(tokens := s.redis.tokens + multiset(s.phase[p].targets))
    decreases |s.phase[p].targets|
  {
    var hs := s.phase[p].targets;
    if hs == [] {
      s' := s;
      assert s.redis.tokens + multiset(hs) == s.redis.tokens;
    } else {
      var pushed := s.redis.(tokens := s.redis.tokens + multiset{hs[0]});
      var m := Moved(s, p, Pushing(hs[1..]), pushed);
      AloneThen(s0, s, p, Pushing(hs[1..]), pushed, Push);
      s' := PushesAlone(s0, m, p);
      OneByOne(s.redis.tokens, hs);
    }
  }

  lemma OneByOne(tokens: multiset<Handle>, hs: seq<Handle>)
    requires hs != []
    ensures tokens + multiset{hs[0]} + multiset(hs[1..]) == tokens + multiset(hs)
  {
    assert hs == [hs[0]] + hs[1..];
  }

  /** notify_all: everybody listed gets a token, and nobody is listed any more. */
  lemma NotifyAllAlone(s: State, p: Pid)
    requires p in s.phase && s.phase[p].Holding?
    ensures var v := s.redis;
            Alone(s, State(v.(waiters := [], tokens := v.tokens + multiset(v.waiters)), s.phase), p)
  {
    var v, hs := s.redis, s.redis.waiters;
    var l := Moved(s, p, Listed(hs), v);
    AloneStays(s, p);
    AloneThen(s, s, p, Listed(hs), v, List);
    AloneThen(s, l, p, Pushing(hs), v.(waiters := []), Delete);
    var m := PushesAlone(s, Moved(l, p, Pushing(hs), v.(waiters := [])), p);
    AloneThen(s, m, p, Holding, m.redis, Finish);
    assert Moved(m, p, Holding, m.redis).phase == s.phase;
  }
}

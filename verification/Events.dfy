/** Event (lithops/multiprocessing/synchronize.py): a flag under a condition variable.
    Every step that is not one of the flag commands is a step of the condition. */
module Events {
  import opened C = Conditions

  /** Where a process stands in set, clear or wait. */
  datatype Program =
    | Free
    | SetFlag | SetNotify          // set: about to write the flag; about to run or running notify_all
    | ClearFlag                    // clear: about to write the flag
    | WaitTest | WaitSleep         // wait: about to test the flag; inside Condition.wait
    | Exit                         // about to leave the `with` block

  datatype EventState = EventState(cond: C.State, flag: bool, program: map<Pid, Program>)

  /** The condition step a process takes while its program is where it is. */
  predicate CondStep(s: EventState, s': EventState, p: Pid, a: Action) {
    C.Next(s.cond, s'.cond, p, a) && s'.flag == s.flag
  }

  predicate FlagStep(s: EventState, s': EventState, p: Pid, flag: bool) {
    p in s.cond.phase && s.cond.phase[p].Holding? && s'.cond == s.cond && s'.flag == flag
  }

  /** One step of p; `a` names the condition step, if it is one. */
  predicate NextProgram(s: EventState, s': EventState, p: Pid, a: Action, from: Program, to: Program) {
    match from
    case Free => a == Acquire && CondStep(s, s', p, a) && (to.SetFlag? || to.ClearFlag? || to.WaitTest?)
    case SetFlag => FlagStep(s, s', p, true) && to.SetNotify?
    case SetNotify =>
      && a in {List, Delete, Push, Finish} && CondStep(s, s', p, a)
      && to == (if a == Finish then Exit else SetNotify)
    case ClearFlag => FlagStep(s, s', p, false) && to.Exit?
    case WaitTest => FlagStep(s, s', p, s.flag) && to == (if s.flag then Exit else WaitSleep)
    case WaitSleep =>
      && a in {Enqueue, Unlock, Wake, Reacquire} && CondStep(s, s', p, a)
      && to == (if a == Reacquire then WaitTest else WaitSleep)
    case Exit => a == Release && CondStep(s, s', p, a) && to.Free?
  }

  predicate NextEvent(s: EventState, s': EventState, p: Pid, a: Action) {
    && p in s.program && p in s'.program
    && s'.program == s.program[p := s'.program[p]]
    && NextProgram(s, s', p, a, s.program[p], s'.program[p])
  }

  ghost predicate InitEvent(s: EventState) {
    && C.Init(s.cond) && !s.flag && s.program.Keys == s.cond.phase.Keys
    && forall p :: p in s.program ==> s.program[p] == Free
  }

  ghost predicate IsEventRun(run: seq<EventState>, trace: seq<Step>) {
    && |run| == |trace| + 1
    && InitEvent(run[0])
    && forall i :: 0 <= i < |trace| ==> NextEvent(run[i], run[i + 1], trace[i].p, trace[i].a)
  }

  // ----- The invariant

  /** Which condition phases go with which program point. */
  predicate Fits(program: Program, ph: Phase) {
    match program
    case Free => ph.Outside?
    case SetNotify => ph.Holding? || ph.Listed? || ph.Pushing?
    case WaitSleep => ph.Holding? || ph.Enqueued? || ph.Blocked? || ph.Woken?
    case _ => ph.Holding?
  }

  /** p has set the flag and not yet deleted the notify list. */
  predicate AboutToWake(s: EventState, p: Pid) {
    && p in s.program && s.program[p].SetNotify?
    && p in s.cond.phase && !s.cond.phase[p].Pushing?
  }

  ghost predicate EventInv(s: EventState) {
    && C.Inv(s.cond)
    && s.program.Keys == s.cond.phase.Keys
    && (forall p :: p in s.program ==> Fits(s.program[p], s.cond.phase[p]))
    // Owning the lock, a process inside wait has seen the flag down and it still is.
    && (forall p :: p in s.program && s.program[p].WaitSleep? && Owner(s.cond.phase[p]) ==> !s.flag)
    && (forall p :: p in s.program && s.program[p].SetNotify? ==> s.flag)
    && (s.flag && s.cond.redis.waiters != [] ==> exists p :: AboutToWake(s, p))
  }

  lemma ProgramFits(s: EventState, s': EventState, p: Pid, a: Action, from: Program, to: Program)
    requires p in s.cond.phase && Fits(from, s.cond.phase[p])
    requires NextProgram(s, s', p, a, from, to)
    ensures s'.cond == s.cond || C.Next(s.cond, s'.cond, p, a)
    ensures p in s'.cond.phase && Fits(to, s'.cond.phase[p])
  {
  }

  lemma FitsStep(s: EventState, s': EventState, p: Pid, a: Action)
    requires EventInv(s) && NextEvent(s, s', p, a)
    ensures C.Inv(s'.cond) && s'.program.Keys == s'.cond.phase.Keys
    ensures forall q :: q in s'.program ==> Fits(s'.program[q], s'.cond.phase[q])
    ensures forall q :: q in s'.program && q != p ==>
              s'.program[q] == s.program[q] && s'.cond.phase[q] == s.cond.phase[q]
  {
    ProgramFits(s, s', p, a, s.program[p], s'.program[p]);
    if s'.cond != s.cond {
      C.InvStep(s.cond, s'.cond, p, a);
    }
  }

  /** While p owns the lock, no other process does. */
  lemma OnlyOwner(s: EventState, p: Pid, q: Pid)
    requires EventInv(s) && p in s.program && q in s.program
    requires Owner(s.cond.phase[p]) && Owner(s.cond.phase[q])
    ensures p == q
  {
  }

  lemma WaitersStep(s: EventState, s': EventState, p: Pid, a: Action)
    requires EventInv(s) && NextEvent(s, s', p, a)
    ensures s'.flag && s'.cond.redis.waiters != [] ==> exists q :: AboutToWake(s', q)
  {
    FitsStep(s, s', p, a);
    if s'.flag && s'.cond.redis.waiters != [] {
      if s.program[p].SetFlag? {
        assert AboutToWake(s', p);
      } else {
        assert s.flag && s.cond.redis.waiters != [];
        var q :| AboutToWake(s, q);
        assert Owner(s.cond.phase[q]);
        if q == p {
          assert AboutToWake(s', p);
        } else {
          assert AboutToWake(s', q);
        }
      }
    }
  }

  lemma EventInvStep(s: EventState, s': EventState, p: Pid, a: Action)
    requires EventInv(s) && NextEvent(s, s', p, a)
    ensures EventInv(s')
  {
    FitsStep(s, s', p, a);
    WaitersStep(s, s', p, a);
    forall q | q in s'.program && s'.program[q].WaitSleep? && Owner(s'.cond.phase[q])
      ensures !s'.flag
    {
      if q != p && s'.flag && !s.flag {
        OnlyOwner(s, p, q);
      }
    }
    forall q | q in s'.program && s'.program[q].SetNotify?
      ensures s'.flag
    {
      if q != p && s.program[p].ClearFlag? {
        OnlyOwner(s, p, q);
      }
    }
  }

  lemma {:induction false} EventInvRun(run: seq<EventState>, trace: seq<Step>, i: nat)
    requires IsEventRun(run, trace) && i < |run|
    ensures EventInv(run[i])
  {
    if i == 0 {
      C.InvRun([run[0].cond], [], 0);
    } else {
      EventInvRun(run, trace, i - 1);
      EventInvStep(run[i - 1], run[i - 1 + 1], trace[i - 1].p, trace[i - 1].a);
    }
  }

  // ----- What it means

  /** No waiter is stranded: whenever the lock is free and the flag is up, the notify list
      is empty and every process blocked in wait already has its token. */
  lemma NobodyStranded(run: seq<EventState>, trace: seq<Step>, i: nat)
    requires IsEventRun(run, trace) && i < |run|
    requires run[i].flag && run[i].cond.redis.lock == 1
    ensures run[i].cond.redis.waiters == []
    ensures forall p, h :: p in run[i].cond.phase && run[i].cond.phase[p] == Blocked(h) ==>
              run[i].cond.redis.tokens[h] == 1
  {
    EventInvRun(run, trace, i);
    var c := run[i].cond;
    assert forall p :: AboutToWake(run[i], p) ==> Owner(c.phase[p]);
    forall p, h | p in c.phase && c.phase[p] == Blocked(h)
      ensures c.redis.tokens[h] == 1
    {
      CapturedByNobody(c);
      assert Copies(c, h) == if Awaited(c, h) then 1 else 0;
      assert WaitsOn(c.phase[p], h);
    }
  }

  // ----- A whole call of wait

  predicate InWait(s: EventState, p: Pid) {
    p in s.program && (s.program[p].WaitTest? || s.program[p].WaitSleep?)
  }

  predicate Asleep(s: EventState, p: Pid) {
    p in s.program && s.program[p].WaitSleep?
  }

  /** A call of wait by p: it takes the lock at step i and gets past the loop at step j. */
  ghost predicate WaitCall(run: seq<EventState>, trace: seq<Step>, p: Pid, i: nat, j: nat) {
    && i < j < |trace| && |run| == |trace| + 1
    && p in run[i].program && run[i].program[p].Free?
    && (forall k :: i < k <= j ==> InWait(run[k], p))
    && p in run[j + 1].program && run[j + 1].program[p].Exit?
  }

  /** Step m is a set writing the flag. */
  predicate SetsFlag(run: seq<EventState>, trace: seq<Step>, m: nat)
    requires m < |run| && m < |trace|
  {
    trace[m].p in run[m].program && run[m].program[trace[m].p].SetFlag?
  }

  /** A flag that is down and later up was set in between. */
  lemma {:induction false} FlagRises(run: seq<EventState>, trace: seq<Step>, k: nat, j: nat) returns (m: nat)
    requires IsEventRun(run, trace) && k <= j < |run|
    requires !run[k].flag && run[j].flag
    ensures k <= m < j && SetsFlag(run, trace, m)
    decreases j
  {
    m := j - 1;
    assert NextEvent(run[m], run[m + 1], trace[m].p, trace[m].a);
    if run[m].flag {
      m := FlagRises(run, trace, k, m);
    }
  }

  /** A process that sleeps in wait has seen the flag down during the same call. */
  lemma {:induction false} SleeperSawItDown(run: seq<EventState>, trace: seq<Step>, p: Pid, i: nat, k: nat)
    returns (l: nat)
    requires IsEventRun(run, trace) && i < k < |run|
    requires p in run[i].program && run[i].program[p].Free?
    requires forall m :: i < m <= k ==> InWait(run[m], p)
    requires Asleep(run[k], p)
    ensures i < l < k && !run[l].flag
    decreases k
  {
    l := k - 1;
    assert NextEvent(run[l], run[l + 1], trace[l].p, trace[l].a);
    assert l != i;
    assert InWait(run[l], p);
    if Asleep(run[l], p) {
      l := SleeperSawItDown(run, trace, p, i, l);
    }
  }

  /** wait returns only after it has seen the flag up during the call, as the one owner of
      the lock; if it slept, some other process has set the flag during the call. */
  lemma WaitReturnsOnlyWhenSet(run: seq<EventState>, trace: seq<Step>, p: Pid, i: nat, j: nat)
    requires IsEventRun(run, trace) && WaitCall(run, trace, p, i, j)
    ensures run[j].flag && p in run[j].cond.phase && Owner(run[j].cond.phase[p])
    ensures forall q :: q in run[j].cond.phase && Owner(run[j].cond.phase[q]) ==> q == p
    ensures forall k :: i < k <= j && Asleep(run[k], p) ==>
              exists m :: i < m < j && SetsFlag(run, trace, m) && trace[m].p != p
  {
    EventInvRun(run, trace, j);
    assert NextEvent(run[j], run[j + 1], trace[j].p, trace[j].a);
    assert InWait(run[j], p);
    assert p == trace[j].p;
    forall k | i < k <= j && Asleep(run[k], p)
      ensures exists m :: i < m < j && SetsFlag(run, trace, m) && trace[m].p != p
    {
      var l := SleeperSawItDown(run, trace, p, i, k);
      var m := FlagRises(run, trace, l, j);
      assert InWait(run[m], p);
    }
  }

  // ----- The flag

  /** Step m is a clear writing the flag. */
  predicate ClearsFlag(run: seq<EventState>, trace: seq<Step>, m: nat)
    requires m < |run| && m < |trace|
  {
    trace[m].p in run[m].program && run[m].program[trace[m].p].ClearFlag?
  }

  /** Step m is the last set before i, and no clear came after it. */
  ghost predicate LastWrittenBySet(run: seq<EventState>, trace: seq<Step>, i: nat, m: nat)
    requires i < |run| == |trace| + 1
  {
    m < i && SetsFlag(run, trace, m) && forall k :: m < k < i ==> !ClearsFlag(run, trace, k)
  }

  /** The flag is up exactly if the last call to write it was a set. */
  lemma {:induction false} FlagIsLastWrite(run: seq<EventState>, trace: seq<Step>, i: nat)
    requires IsEventRun(run, trace) && i < |run|
    ensures run[i].flag <==> exists m: nat :: LastWrittenBySet(run, trace, i, m)
  {
    if i > 0 {
      var l := i - 1;
      FlagIsLastWrite(run, trace, l);
      assert NextEvent(run[l], run[l + 1], trace[l].p, trace[l].a);
      if SetsFlag(run, trace, l) {
        assert LastWrittenBySet(run, trace, i, l);
      } else if !ClearsFlag(run, trace, l) {
        forall m: nat
          ensures LastWrittenBySet(run, trace, i, m) <==> LastWrittenBySet(run, trace, l, m)
        {
        }
      }
    }
  }

  // ----- What a call does that nobody disturbs

  /** p can get from s to s' by steps of its own. */
  ghost predicate EventAlone(s: EventState, s': EventState, p: Pid) {
    exists run, actions :: EventAloneVia(s, s', p, run, actions)
  }

  ghost predicate EventAloneVia(s: EventState, s': EventState, p: Pid, run: seq<EventState>, actions: seq<Action>) {
    && |run| == |actions| + 1 && run[0] == s && run[|actions|] == s'
    && forall i :: 0 <= i < |actions| ==> NextEvent(run[i], run[i + 1], p, actions[i])
  }

  lemma EventStays(s: EventState, p: Pid)
    ensures EventAlone(s, s, p)
  {
    assert EventAloneVia(s, s, p, [s], []);
  }

  lemma EventThen(s0: EventState, s: EventState, s': EventState, p: Pid, a: Action)
    requires EventAlone(s0, s, p) && NextEvent(s, s', p, a)
    ensures EventAlone(s0, s', p)
  {
    var run, actions :| EventAloneVia(s0, s, p, run, actions);
    assert EventAloneVia(s0, s', p, run + [s'], actions + [a]);
  }

  /** The state with p at another point of its program and in another phase. */
  function At(s: EventState, p: Pid, to: Program, ph: Phase, v: Redis): EventState {
    s.(cond := C.Moved(s.cond, p, ph, v), program := s.program[p := to])
  }

  lemma CondThen(s0: EventState, s: EventState, p: Pid, to: Program, ph: Phase, v: Redis, a: Action)
    requires EventAlone(s0, s, p) && p in s.program && p in s.cond.phase
    requires C.Command(s.cond.redis, v, s.cond.phase[p], ph, a)
    requires NextProgram(s, At(s, p, to, ph, v), p, a, s.program[p], to)
    ensures EventAlone(s0, At(s, p, to, ph, v), p)
  {
    EventThen(s0, s, At(s, p, to, ph, v), p, a);
  }

  /** A call begins: p takes the lock for what it wants to do. */
  lemma Enters(s: EventState, p: Pid, to: Program) returns (s': EventState)
    requires p in s.program && s.program[p].Free? && p in s.cond.phase && s.cond.phase[p].Outside?
    requires s.cond.redis.lock == 1 && (to.SetFlag? || to.ClearFlag? || to.WaitTest?)
    ensures EventAlone(s, s', p) && s' == At(s, p, to, Holding, s.cond.redis.(lock := 0))
  {
    EventStays(s, p);
    s' := At(s, p, to, Holding, s.cond.redis.(lock := 0));
    CondThen(s, s, p, to, Holding, s.cond.redis.(lock := 0), Acquire);
  }

  /** And ends, with everything else as it is. */
  lemma Leaves(s0: EventState, s: EventState, p: Pid) returns (s': EventState)
    requires EventAlone(s0, s, p) && p in s.program && s.program[p].Exit?
    requires p in s.cond.phase && s.cond.phase[p].Holding? && s.cond.redis.lock == 0
    ensures EventAlone(s0, s', p) && s' == At(s, p, Free, Outside, s.cond.redis.(lock := 1))
  {
    s' := At(s, p, Free, Outside, s.cond.redis.(lock := 1));
    CondThen(s0, s, p, Free, Outside, s.cond.redis.(lock := 1), Release);
  }

  lemma {:induction false} PushesOn(s0: EventState, s: EventState, p: Pid) returns (s': EventState)
    requires EventAlone(s0, s, p) && p in s.program && s.program[p].SetNotify?
    requires p in s.cond.phase && s.cond.phase[p].Pushing?
    ensures EventAlone(s0, s', p)
    ensures s' == At(s, p, SetNotify, Pushing([]),
                     s.cond.redis.(tokens := s.cond.redis.tokens + multiset(s.cond.phase[p].targets)))
    decreases |s.cond.phase[p].targets|
  {
    var hs, v := s.cond.phase[p].targets, s.cond.redis;
    s' := At(s, p, SetNotify, Pushing([]), v.(tokens := v.tokens + multiset(hs)));
    if hs == [] {
      assert v.tokens + multiset(hs) == v.tokens;
      assert s' == s;
    } else {
      var pushed := v.(tokens := v.tokens + multiset{hs[0]});
      var m := At(s, p, SetNotify, Pushing(hs[1..]), pushed);
      CondThen(s0, s, p, SetNotify, Pushing(hs[1..]), pushed, Push);
      var e := PushesOn(s0, m, p);
      OneByOne(v.tokens, hs);
      AtTwice(s, p, SetNotify, Pushing(hs[1..]), pushed, SetNotify, Pushing([]), e.cond.redis);
    }
  }

  lemma AtTwice(s: EventState, p: Pid, to: Program, ph: Phase, v: Redis, to': Program, ph': Phase, v': Redis)
    ensures At(At(s, p, to, ph, v), p, to', ph', v') == At(s, p, to', ph', v')
  {
    assert s.program[p := to][p := to'] == s.program[p := to'];
    assert s.cond.phase[p := ph][p := ph'] == s.cond.phase[p := ph'];
  }

  /** set: the flag is up, everybody listed has a token, and the lock is free again. */
  lemma SetAlone(s: EventState, p: Pid)
    requires p in s.program && s.program[p].Free? && p in s.cond.phase && s.cond.phase[p].Outside?
    requires s.cond.redis.lock == 1
    ensures var v := s.cond.redis;
            var woken := v.(waiters := [], tokens := v.tokens + multiset(v.waiters));
            EventAlone(s, s.(flag := true, cond := s.cond.(redis := woken)), p)
  {
    var m := Enters(s, p, SetFlag);
    var hs := m.cond.redis.waiters;
    var f := m.(flag := true, program := m.program[p := SetNotify]);
    EventThen(s, m, f, p, Acquire);
    var l := At(f, p, SetNotify, Listed(hs), f.cond.redis);
    CondThen(s, f, p, SetNotify, Listed(hs), f.cond.redis, List);
    var d := At(l, p, SetNotify, Pushing(hs), l.cond.redis.(waiters := []));
    CondThen(s, l, p, SetNotify, Pushing(hs), l.cond.redis.(waiters := []), Delete);
    var e := PushesOn(s, d, p);
    var x := At(e, p, Exit, Holding, e.cond.redis);
    CondThen(s, e, p, Exit, Holding, e.cond.redis, Finish);
    var s' := Leaves(s, x, p);
    assert s'.program == s.program && s'.cond.phase == s.cond.phase;
  }

  /** clear: the flag is down, and nothing else has changed. */
  lemma ClearAlone(s: EventState, p: Pid)
    requires p in s.program && s.program[p].Free? && p in s.cond.phase && s.cond.phase[p].Outside?
    requires s.cond.redis.lock == 1
    ensures EventAlone(s, s.(flag := false), p)
  {
    var m := Enters(s, p, ClearFlag);
    var x := m.(flag := false, program := m.program[p := Exit]);
    EventThen(s, m, x, p, Acquire);
    var s' := Leaves(s, x, p);
    assert s'.program == s.program && s'.cond.phase == s.cond.phase;
    assert s'.cond.redis == s.cond.redis;
  }

  /** The test of wait: with the flag up the call ends there; with the flag down it blocks on a
      handle of its own, listed last, and leaves the lock. */
  lemma WaitAlone(s: EventState, p: Pid)
    requires p in s.program && s.program[p].Free? && p in s.cond.phase && s.cond.phase[p].Outside?
    requires s.cond.redis.lock == 1
    ensures var m := At(s, p, WaitTest, Holding, s.cond.redis.(lock := 0));
            var h, v := s.cond.redis.nextHandle, s.cond.redis;
            EventAlone(m, if s.flag then s
                          else At(s, p, WaitSleep, Blocked(h), Redis(1, v.waiters + [h], v.tokens, h + 1)), p)
  {
    var m := At(s, p, WaitTest, Holding, s.cond.redis.(lock := 0));
    var h, v := m.cond.redis.nextHandle, m.cond.redis;
    EventStays(m, p);
    if s.flag {
      var x := m.(program := m.program[p := Exit]);
      EventThen(m, m, x, p, Acquire);
      var s' := Leaves(m, x, p);
      assert s'.program == s.program && s'.cond.phase == s.cond.phase;
      assert s'.cond.redis == s.cond.redis;
    } else {
      var t := m.(program := m.program[p := WaitSleep]);
      EventThen(m, m, t, p, Acquire);
      var listed := Redis(0, v.waiters + [h], v.tokens, h + 1);
      var q := At(t, p, WaitSleep, Enqueued(h), listed);
      CondThen(m, t, p, WaitSleep, Enqueued(h), listed, Enqueue);
      CondThen(m, q, p, WaitSleep, Blocked(h), listed.(lock := 1), Unlock);
      assert At(q, p, WaitSleep, Blocked(h), listed.(lock := 1)) ==
             At(s, p, WaitSleep, Blocked(h), listed.(lock := 1));
    }
  }

  /** A sleeper with its token there tests again, as the owner of the lock. */
  lemma WaitGoesOn(s: EventState, p: Pid)
    requires p in s.program && s.program[p].WaitSleep? && p in s.cond.phase && s.cond.phase[p].Blocked?
    requires s.cond.redis.lock == 1 && s.cond.phase[p].handle in s.cond.redis.tokens
    ensures var v := s.cond.redis;
            var taken := v.(lock := 0, tokens := v.tokens - multiset{s.cond.phase[p].handle});
            EventAlone(s, At(s, p, WaitTest, Holding, taken), p)
  {
    var v := s.cond.redis;
    var taken := v.(tokens := v.tokens - multiset{s.cond.phase[p].handle});
    EventStays(s, p);
    CondThen(s, s, p, WaitSleep, Woken, taken, Wake);
    var w := At(s, p, WaitSleep, Woken, taken);
    CondThen(s, w, p, WaitTest, Holding, taken.(lock := 0), Reacquire);
    AtTwice(s, p, WaitSleep, Woken, taken, WaitTest, Holding, taken.(lock := 0));
  }
}

/** Semaphores and locks kept as a Redis list of tokens
    (lithops/multiprocessing/synchronize.py, SemLock and its subclasses). */
module SemLocks {

  const SEM_VALUE_MAX: nat := 0x4000_0000

  /** The atomic release script: no token is pushed at or above the maximum. */
  function LuaRelease(value: nat, max: nat): nat {
    if value >= max then value else value + 1
  }

  class SemLock {
    const maxValue: nat
    var list: seq<string>

    constructor (value: nat, maxValue: nat)
      ensures this.maxValue == maxValue && |list| == value
    {
      this.maxValue := maxValue;
      list := seq(value, i => "");
    }

    method GetValue() returns (value: nat)
      ensures value == |list|
    {
      value := |list|;
    }

    /** The moment a blocking `blpop` is served: Redis delays it until the list is not empty. */
    method AcquireServed()
      requires list != []
      modifies this`list
      ensures |list| == old(|list|) - 1
    {
      list := list[1..];
    }

    method TryAcquire() returns (acquired: bool)
      modifies this`list
      ensures acquired <==> old(|list|) > 0
      ensures |list| == if acquired then old(|list|) - 1 else 0
    {
      acquired := list != [];
      if acquired {
        list := list[1..];
      }
    }

    method Release()
      modifies this`list
      ensures |list| == LuaRelease(old(|list|), maxValue)
    {
      var value := |list|;
      if value >= maxValue {
        return;
      }
      list := list + [""];
    }
  }

  /** A Lock remembers, per process, that `acquire` was called. */
  class Lock {
    const sem: SemLock
    var owned: bool

    constructor ()
      ensures fresh(sem) && sem.maxValue == 1 && |sem.list| == 1 && !owned
    {
      sem := new SemLock(1, 1);
      owned := false;
    }

    /** `owned` is set even when nothing was acquired. */
    method TryAcquire() returns (acquired: bool)
      modifies this`owned, sem`list
      ensures acquired <==> old(|sem.list|) > 0
      ensures |sem.list| == if acquired then old(|sem.list|) - 1 else 0
      ensures owned
    {
      acquired := sem.TryAcquire();
      owned := true;
    }

    method Release()
      modifies this`owned, sem`list
      ensures |sem.list| == LuaRelease(old(|sem.list|), sem.maxValue)
      ensures !owned
    {
      sem.Release();
      owned := false;
    }
  }

  // ----- All interleavings of any number of processes

  type Pid = nat

  /** `held` counts, for each process, the acquires it has not yet released. */
  datatype State = State(tokens: nat, held: multiset<Pid>)

  datatype Action = Acquire | FailedTryAcquire | Release | StrayRelease

  predicate Next(max: nat, s: State, s': State, p: Pid, a: Action) {
    match a
    case Acquire => s.tokens > 0 && s' == State(s.tokens - 1, s.held + multiset{p})
    case FailedTryAcquire => s.tokens == 0 && s' == s
    case Release => p in s.held && s' == State(LuaRelease(s.tokens, max), s.held - multiset{p})
    case StrayRelease => s' == s.(tokens := LuaRelease(s.tokens, max))
  }

  datatype Step = Step(p: Pid, a: Action)

  /** A run: `trace[i]` leads from `run[i]` to `run[i + 1]`. */
  ghost predicate IsRun(init: nat, max: nat, run: seq<State>, trace: seq<Step>) {
    && |run| == |trace| + 1
    && run[0] == State(init, multiset{})
    && forall i :: 0 <= i < |trace| ==> Next(max, run[i], run[i + 1], trace[i].p, trace[i].a)
  }

  /** Only successful acquirers release. */
  ghost predicate Disciplined(trace: seq<Step>) {
    forall e :: e in trace ==> !e.a.StrayRelease?
  }

  /** Whoever releases, the value never rises above the maximum it may start from. */
  lemma {:induction false} ValueBounded(init: nat, max: nat, run: seq<State>, trace: seq<Step>, i: nat)
    requires IsRun(init, max, run, trace) && i < |run|
    ensures run[i].tokens <= if init > max then init else max
  {
    if i > 0 {
      ValueBounded(init, max, run, trace, i - 1);
      assert Next(max, run[i - 1], run[i - 1 + 1], trace[i - 1].p, trace[i - 1].a);
    }
  }

  lemma {:induction false} TokensConserved(init: nat, max: nat, run: seq<State>, trace: seq<Step>, i: nat)
    requires init <= max && IsRun(init, max, run, trace) && Disciplined(trace) && i < |run|
    ensures run[i].tokens + |run[i].held| == init
  {
    if i > 0 {
      TokensConserved(init, max, run, trace, i - 1);
      assert trace[i - 1] in trace;
      assert Next(max, run[i - 1], run[i - 1 + 1], trace[i - 1].p, trace[i - 1].a);
    }
  }

  ghost predicate Conserves(init: nat, max: nat) {
    forall run: seq<State>, trace: seq<Step>, i: nat ::
      IsRun(init, max, run, trace) && Disciplined(trace) && i < |run| ==>
      run[i].tokens + |run[i].held| == init
  }

  /** Tokens plus holders stay at the initial value on every disciplined run exactly when
      the semaphore is not created above its own maximum; the constructor does not check. */
  lemma ConservesIff(init: nat, max: nat)
    ensures Conserves(init, max) <==> init <= max
  {
    if init <= max {
      forall run: seq<State>, trace: seq<Step>, i: nat | IsRun(init, max, run, trace) && Disciplined(trace) && i < |run|
        ensures run[i].tokens + |run[i].held| == init
      {
        TokensConserved(init, max, run, trace, i);
      }
    } else {
      var start := State(init, multiset{});
      var taken := State(init - 1, multiset{0});
      var lost := State(init - 1, multiset{});
      var run, trace := [start, taken, lost], [Step(0, Acquire), Step(0, Release)];
      assert multiset{} + multiset{0} == multiset{0} && multiset{0} - multiset{0} == multiset{};
      assert IsRun(init, max, run, trace) && Disciplined(trace);
      assert run[2].tokens + |run[2].held| != init;
    }
  }

  /** A BoundedSemaphore(n) never has more than n holders. */
  lemma BoundedHolders(n: nat, run: seq<State>, trace: seq<Step>, i: nat)
    requires IsRun(n, n, run, trace) && Disciplined(trace) && i < |run|
    ensures |run[i].held| <= n
  {
    TokensConserved(n, n, run, trace, i);
  }

  /** A Lock has at most one holder, who holds it once, and it is free exactly when nobody does. */
  lemma MutualExclusion(run: seq<State>, trace: seq<Step>, i: nat, p: Pid, q: Pid)
    requires IsRun(1, 1, run, trace) && Disciplined(trace) && i < |run|
    ensures p in run[i].held && q in run[i].held ==> p == q && run[i].held == multiset{p}
    ensures run[i].tokens == 1 <==> run[i].held == multiset{}
  {
    TokensConserved(1, 1, run, trace, i);
    if p in run[i].held {
      var rest := run[i].held - multiset{p};
      assert run[i].held == rest + multiset{p};
    }
  }

  /** With releases by processes that hold nothing there is no bound: however many holders are
      asked for, some run has them, unless the semaphore admits none at all. */
  lemma {:induction false} HoldersUnbounded(n: nat, holders: nat) returns (run: seq<State>, trace: seq<Step>)
    requires n > 0
    ensures IsRun(n, n, run, trace)
    ensures run[|trace|].tokens == n && |run[|trace|].held| == holders
  {
    if holders == 0 {
      run, trace := [State(n, multiset{})], [];
    } else {
      run, trace := HoldersUnbounded(n, holders - 1);
      var held := run[|trace|].held + multiset{0};
      run := run + [State(n - 1, held), State(n, held)];
      trace := trace + [Step(0, Acquire), Step(0, StrayRelease)];
    }
  }

  /** A try-acquire has an outcome in every state, the one that the method returns. */
  lemma TryAcquireEnds(max: nat, s: State, p: Pid) returns (acquired: bool, s': State)
    ensures Next(max, s, s', p, if acquired then Acquire else FailedTryAcquire)
    ensures acquired <==> s.tokens > 0
    ensures s'.tokens == (if acquired then s.tokens - 1 else 0) && |s'.held| == |s.held| + s.tokens - s'.tokens
  {
    acquired := s.tokens > 0;
    s' := if acquired then State(s.tokens - 1, s.held + multiset{p}) else s;
  }
}

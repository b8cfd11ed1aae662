/** What the concurrent model of the standalone queue does when nobody is in the way: each
    operation alone has the effect of the sequential one (lithops/standalone/master.py
    handle_job and cancel_job_process, lithops/standalone/worker.py redis_queue_consumer). */
module SerialRuns {
  import opened WorkQueue
  import opened TaskRaces
  import opened CancelRaces
  import JobStatus

  // ----- A submission

  /** The queue, the status and the number of tasks after a job was submitted. */
  function Submitting(v: Redis, job: string, calls: seq<nat>): Redis {
    v.(queue := Reversed(Tasks(job, calls)) + v.queue,
       status := v.status[job := Submitted], total := v.total[job := |calls|])
  }

  lemma {:induction false} PushesAlone(s0: State, s: State, p: nat) returns (s': State)
    requires Reaches(s0, s) && p < |s.phases| && s.phases[p].Pushing?
    ensures Reaches(s0, s')
    ensures var job, calls := s.phases[p].job, s.phases[p].calls;
            s' == After(s, p, AllPushed, s.redis.(queue := Reversed(Tasks(job, calls)) + s.redis.queue))
    decreases |s.phases[p].calls|
  {
    var job, calls, q := s.phases[p].job, s.phases[p].calls, s.redis.queue;
    if calls == [] {
      Then(s0, s, p, AllPushed, s.redis, EndPushing);
      s' := After(s, p, AllPushed, s.redis);
      assert Reversed(Tasks(job, calls)) + q == q;
    } else {
      var t, rest := Task(job, calls[0]), calls[1..];
      var v := s.redis.(queue := [t] + q);
      Then(s0, s, p, Pushing(job, rest), v, Lpush);
      s' := PushesAlone(s0, After(s, p, Pushing(job, rest), v), p);
      assert Tasks(job, calls)[1..] == Tasks(job, rest);
      assert Reversed(Tasks(job, rest)) + ([t] + q) == (Reversed(Tasks(job, rest)) + [t]) + q;
    }
  }

  lemma SubmitAlone(s: State, p: nat)
    requires p < |s.phases| && s.phases[p].ToSubmit?
    ensures Reaches(s, After(s, p, AllPushed, Submitting(s.redis, s.phases[p].job, s.phases[p].calls)))
  {
    var job, calls := s.phases[p].job, s.phases[p].calls;
    var v := s.redis.(status := s.redis.status[job := Submitted], total := s.redis.total[job := |calls|]);
    Stays(s);
    Then(s, s, p, Pushing(job, calls), v, HsetJob);
    var m := After(s, p, Pushing(job, calls), v);
    var s' := PushesAlone(s, m, p);
    assert s'.phases == s.phases[p := AllPushed];
  }

  // ----- A worker

  function Begins(status: map<string, Status>, job: string): map<string, Status> {
    if job in status && status[job] == Submitted then status[job := Running] else status
  }

  /** What running the task at the tail of the queue does. */
  function Worked(v: Redis): Redis
    requires v.queue != []
  {
    var n := |v.queue| - 1;
    var job := v.queue[n].job;
    var recorded, begun := v.recorded + [v.queue[n]], Begins(v.status, job);
    var last := job in v.total && v.total[job] == Count(recorded, OfJob(job));
    v.(queue := v.queue[..n], recorded := recorded, status := if last then begun[job := Done] else begun)
  }

  lemma WorkOne(s0: State, s: State, q: nat) returns (s': State)
    requires Reaches(s0, s) && q < |s.phases| && s.phases[q].Idle? && s.redis.queue != []
    ensures Reaches(s0, s') && s' == After(s, q, Idle, Worked(s.redis))
  {
    var v, n := s.redis, |s.redis.queue| - 1;
    var t := v.queue[n];
    var popped := v.(queue := v.queue[..n]);
    Then(s0, s, q, Popped(t), popped, Pop);
    var m := After(s, q, Popped(t), popped);
    m := BeginTask(s0, m, q);
    m := EndTask(s0, m, q);
    s' := m;
    assert s'.phases == s.phases[q := Idle];
  }

  lemma BeginTask(s0: State, s: State, q: nat) returns (s': State)
    requires Reaches(s0, s) && q < |s.phases| && s.phases[q].Popped?
    ensures Reaches(s0, s')
    ensures s' == After(s, q, Working(s.phases[q].task),
                        s.redis.(status := Begins(s.redis.status, s.phases[q].task.job)))
  {
    var t, v := s.phases[q].task, s.redis;
    if t.job in v.status && v.status[t.job] == Submitted {
      Then(s0, s, q, Starting(t), v, GetStatus);
      var m := After(s, q, Starting(t), v);
      Then(s0, m, q, Working(t), v.(status := v.status[t.job := Running]), SetRunning);
      s' := After(m, q, Working(t), v.(status := v.status[t.job := Running]));
      assert s'.phases == s.phases[q := Working(t)];
    } else {
      Then(s0, s, q, Working(t), v, GetStatus);
      s' := After(s, q, Working(t), v);
    }
  }

  lemma EndTask(s0: State, s: State, q: nat) returns (s': State)
    requires Reaches(s0, s) && q < |s.phases| && s.phases[q].Working?
    ensures Reaches(s0, s')
    ensures var t, v := s.phases[q].task, s.redis;
            var recorded := v.recorded + [t];
            var last := t.job in v.total && v.total[t.job] == Count(recorded, OfJob(t.job));
            s' == After(s, q, Idle, v.(recorded := recorded,
                                       status := if last then v.status[t.job := Done] else v.status))
  {
    var t, v := s.phases[q].task, s.redis.(recorded := s.redis.recorded + [s.phases[q].task]);
    var n := Count(v.recorded, OfJob(t.job));
    Then(s0, s, q, Recorded(t, n), v, Record);
    var m := After(s, q, Recorded(t, n), v);
    if t.job in v.total && v.total[t.job] == n {
      Then(s0, m, q, Finishing(t), v, GetTotal);
      m := After(m, q, Finishing(t), v);
      Then(s0, m, q, Idle, v.(status := v.status[t.job := Done]), SetDone);
      s' := After(m, q, Idle, v.(status := v.status[t.job := Done]));
    } else {
      Then(s0, m, q, Idle, v, GetTotal);
      s' := After(m, q, Idle, v);
    }
    assert s'.phases == s.phases[q := Idle];
  }

  /** A worker that runs tasks until the queue is empty, as Queue.Consume does: every task is
      recorded, the longest queued first. */
  lemma {:induction false} WorkAlone(s0: State, s: State, q: nat) returns (s': State)
    requires Reaches(s0, s) && q < |s.phases| && s.phases[q].Idle?
    ensures Reaches(s0, s') && s'.phases == s.phases[q := Left]
    ensures s'.redis == s.redis.(queue := [], status := s'.redis.status,
                                 recorded := s.redis.recorded + Reversed(s.redis.queue))
    decreases |s.redis.queue|
  {
    var queue := s.redis.queue;
    if queue == [] {
      Then(s0, s, q, Left, s.redis, Leave);
      s' := After(s, q, Left, s.redis);
      assert s.redis.recorded + Reversed(queue) == s.redis.recorded;
    } else {
      var m := WorkOne(s0, s, q);
      s' := WorkAlone(s0, m, q);
      var front, t := queue[..|queue| - 1], queue[|queue| - 1];
      AppendReversed(front, [t], t);
      Together(s.redis.recorded, [t], Reversed(front));
      assert queue == front + [t];
      assert m.phases == s.phases;
    }
  }

  /** One job and one worker: the tasks run in order of submission, and the job is DONE. */
  lemma JobAlone(job: string, calls: seq<nat>)
    requires calls != []
    ensures var s0 := State(Redis([], map[], map[], [], [], {}), [ToSubmit(job, calls), Idle]);
            exists s :: Reaches(s0, s) && JobStatus.IsDone(s, job) && s.redis.recorded == Tasks(job, calls)
  {
    var s0 := State(Redis([], map[], map[], [], [], {}), [ToSubmit(job, calls), Idle]);
    SubmitAlone(s0, 0);
    var m := After(s0, 0, AllPushed, Submitting(s0.redis, job, calls));
    var s := WorkAlone(s0, m, 1);
    ReversedTwice(Tasks(job, calls));
    assert m.redis.queue == Reversed(Tasks(job, calls));
    assert s.phases == [AllPushed, Left];
    var run, trace :| Path(s0, s, run, trace);
    assert IsRun(run, trace);
    JobStatus.DoneInTheEnd(run, trace, |trace|, 0, job, calls);
    NoCrash(s.phases, OfJob(job));
  }

  lemma {:induction false} NoCrash(phases: seq<Phase>, p: Task -> bool)
    requires forall ph :: ph in phases ==> !ph.Crashed?
    ensures Sum(phases, InCrash(p)) == 0
  {
    if phases != [] {
      NoCrash(phases[1..], p);
      assert phases[0] in phases;
    }
  }

  // ----- A cancellation

  /** The tasks of one job, in order. */
  function Only(tasks: seq<Task>, job: string): seq<Task> {
    if tasks == [] then [] else (if tasks[0].job == job then [tasks[0]] else []) + Only(tasks[1..], job)
  }

  lemma {:induction false} OnlyConcat(a: seq<Task>, b: seq<Task>, job: string)
    ensures Only(a + b, job) == Only(a, job) + Only(b, job)
  {
    if a == [] {
      assert a + b == b;
    } else {
      var first := if a[0].job == job then [a[0]] else [];
      assert (a + b)[1..] == a[1..] + b && (a + b)[0] == a[0];
      OnlyConcat(a[1..], b, job);
      Together(first, Only(a[1..], job), Only(b, job));
    }
  }

  /** Draining: the job's tasks are thrown away, the others kept, the tail first. */
  lemma {:induction false} DrainAlone(s0: State, s: State, c: nat) returns (s': State)
    requires Reaches(s0, s) && c < |s.phases| && s.phases[c].Draining?
    ensures Reaches(s0, s')
    ensures var job, tmp, v := s.phases[c].job, s.phases[c].tmp, s.redis;
            s' == After(s, c, Refilling(job, tmp + Reversed(Without(v.queue, job))),
                        v.(queue := [], dropped := v.dropped + Reversed(Only(v.queue, job))))
    decreases |s.redis.queue|
  {
    var job, tmp, v := s.phases[c].job, s.phases[c].tmp, s.redis;
    if v.queue == [] {
      Then(s0, s, c, Refilling(job, tmp), v, Llen);
      s' := After(s, c, Refilling(job, tmp), v);
      assert tmp + Reversed(Without(v.queue, job)) == tmp;
      assert v.dropped + Reversed(Only(v.queue, job)) == v.dropped;
    } else {
      var front, t := v.queue[..|v.queue| - 1], v.queue[|v.queue| - 1];
      var m := DrainOne(s0, s, c);
      s' := DrainAlone(s0, m, c);
      LastTaken(v.queue, front, t, job);
      Together(tmp, [t], Reversed(Without(front, job)));
      Together(v.dropped, [t], Reversed(Only(front, job)));
      AfterTwice(s, c, m.phases[c], m.redis, s'.phases[c], s'.redis);
    }
  }

  lemma DrainOne(s0: State, s: State, c: nat) returns (s': State)
    requires Reaches(s0, s) && c < |s.phases| && s.phases[c].Draining? && s.redis.queue != []
    ensures Reaches(s0, s')
    ensures var job, tmp, v := s.phases[c].job, s.phases[c].tmp, s.redis;
            var front, t := v.queue[..|v.queue| - 1], v.queue[|v.queue| - 1];
            s' == if t.job != job then After(s, c, Draining(job, tmp + [t]), v.(queue := front))
                  else After(s, c, Draining(job, tmp), v.(queue := front, dropped := v.dropped + [t]))
  {
    var job, tmp, v := s.phases[c].job, s.phases[c].tmp, s.redis;
    var front, t := v.queue[..|v.queue| - 1], v.queue[|v.queue| - 1];
    var ph, v' := if t.job != job then Draining(job, tmp + [t]) else Draining(job, tmp),
                  if t.job != job then v.(queue := front) else v.(queue := front, dropped := v.dropped + [t]);
    Then(s0, s, c, Taking(job, tmp), v, Llen);
    Then(s0, After(s, c, Taking(job, tmp), v), c, ph, v', Rpop);
    AfterTwice(s, c, Taking(job, tmp), v, ph, v');
    s' := After(s, c, ph, v');
  }

  lemma Together(a: seq<Task>, b: seq<Task>, c: seq<Task>)
    ensures (a + b) + c == a + (b + c)
  {
  }

  lemma LastTaken(tasks: seq<Task>, front: seq<Task>, t: Task, job: string)
    requires tasks == front + [t]
    ensures Reversed(Without(tasks, job)) ==
              if t.job == job then Reversed(Without(front, job)) else [t] + Reversed(Without(front, job))
    ensures Reversed(Only(tasks, job)) ==
              if t.job == job then [t] + Reversed(Only(front, job)) else Reversed(Only(front, job))
  {
    WithoutConcat(front, [t], job);
    OnlyConcat(front, [t], job);
    assert [t][1..] == [];
    AppendReversed(Without(front, job), Without([t], job), t);
    AppendReversed(Only(front, job), Only([t], job), t);
  }

  lemma AppendReversed(a: seq<Task>, b: seq<Task>, t: Task)
    requires b == [] || b == [t]
    ensures Reversed(a + b) == if b == [] then Reversed(a) else [t] + Reversed(a)
  {
    if b == [] {
      assert a + b == a;
    } else {
      ReversedConcat(a, b);
      assert Reversed([t]) == [t];
    }
  }

  lemma {:induction false} RefillAlone(s0: State, s: State, c: nat) returns (s': State)
    requires Reaches(s0, s) && c < |s.phases| && s.phases[c].Refilling?
    ensures Reaches(s0, s')
    ensures s' == After(s, c, Stopping(s.phases[c].job),
                        s.redis.(queue := Reversed(s.phases[c].tmp) + s.redis.queue))
    decreases |s.phases[c].tmp|
  {
    var job, tmp, v := s.phases[c].job, s.phases[c].tmp, s.redis;
    if tmp == [] {
      Then(s0, s, c, Stopping(job), v, EndRefill);
      s' := After(s, c, Stopping(job), v);
      assert Reversed(tmp) + v.queue == v.queue;
    } else {
      var pushed := v.(queue := [tmp[0]] + v.queue);
      Then(s0, s, c, Refilling(job, tmp[1..]), pushed, PushBack);
      s' := RefillAlone(s0, After(s, c, Refilling(job, tmp[1..]), pushed), c);
      Together(Reversed(tmp[1..]), [tmp[0]], v.queue);
      assert s'.phases == s.phases[c := Stopping(job)];
    }
  }

  /** The Redis side after a job was cancelled. */
  function Cancelled(v: Redis, job: string): Redis {
    v.(queue := Without(v.queue, job), dropped := v.dropped + Reversed(Only(v.queue, job)),
       stopped := v.stopped + {job},
       status := Marked(v.status, job))
  }

  /** A cancellation takes exactly the job's tasks out of the queue, as Queue.CancelJob does,
      and the job is CANCELED unless it was DONE before. */
  lemma CancelAlone(s: State, c: nat)
    requires c < |s.phases| && s.phases[c].ToCancel? && s.phases[c].job in s.redis.total
    ensures Reaches(s, After(s, c, Over, Cancelled(s.redis, s.phases[c].job)))
  {
    var job := s.phases[c].job;
    Stays(s);
    Then(s, s, c, Draining(job, []), s.redis, GetQueue);
    var m := After(s, c, Draining(job, []), s.redis);
    m := DrainAlone(s, m, c);
    assert [] + Reversed(Without(s.redis.queue, job)) == Reversed(Without(s.redis.queue, job));
    m := RefillAlone(s, m, c);
    ReversedTwice(Without(s.redis.queue, job));
    assert Without(s.redis.queue, job) + [] == Without(s.redis.queue, job);
    Marks(s, m, c, job);
    assert m.phases[c := Over] == s.phases[c := Over];
  }

  /** A worker that is running a task of the job meanwhile is stopped: its task is dropped and
      not recorded. */
  lemma CancelStopsWorker(s: State, c: nat, w: nat)
    requires c < |s.phases| && s.phases[c].ToCancel? && s.phases[c].job in s.redis.total
    requires w < |s.phases| && s.phases[w].Working? && s.phases[w].task.job == s.phases[c].job
    ensures var v := Cancelled(s.redis, s.phases[c].job);
            Reaches(s, After(After(s, c, Over, v), w, Idle, v.(dropped := v.dropped + [s.phases[w].task])))
  {
    CancelAlone(s, c);
    var v := Cancelled(s.redis, s.phases[c].job);
    Then(s, After(s, c, Over, v), w, Idle, v.(dropped := v.dropped + [s.phases[w].task]), Skip);
  }

  lemma Marks(s0: State, s: State, c: nat, job: string)
    requires Reaches(s0, s) && c < |s.phases| && s.phases[c] == Stopping(job)
    ensures Reaches(s0, After(s, c, Over, Stopped(s.redis, job).(status := Marked(s.redis.status, job))))
  {
    var v := Stopped(s.redis, job);
    Then(s0, s, c, Checking(job), v, Stop);
    ChecksAndMarks(s0, After(s, c, Checking(job), v), c, job);
    AfterTwice(s, c, Checking(job), v, Over, v.(status := Marked(v.status, job)));
  }

  lemma ChecksAndMarks(s0: State, s: State, c: nat, job: string)
    requires Reaches(s0, s) && c < |s.phases| && s.phases[c] == Checking(job)
    ensures Reaches(s0, After(s, c, Over, s.redis.(status := Marked(s.redis.status, job))))
  {
    var v := s.redis;
    if job in v.status && v.status[job] == Done {
      Then(s0, s, c, Over, v, CheckStatus);
    } else {
      var canceled := v.(status := v.status[job := Canceled]);
      Then(s0, s, c, Marking(job), v, CheckStatus);
      Then(s0, After(s, c, Marking(job), v), c, Over, canceled, SetCanceled);
      AfterTwice(s, c, Marking(job), v, Over, canceled);
    }
  }

  function Stopped(v: Redis, job: string): Redis {
    v.(stopped := v.stopped + {job})
  }

  function Marked(status: map<string, Status>, job: string): map<string, Status> {
    if job in status && status[job] == Done then status else status[job := Canceled]
  }

  lemma AfterTwice(s: State, c: nat, ph: Phase, v: Redis, ph': Phase, v': Redis)
    requires c < |s.phases|
    ensures After(After(s, c, ph, v), c, ph', v') == After(s, c, ph', v')
  {
    assert s.phases[c := ph][c := ph'] == s.phases[c := ph'];
  }
}

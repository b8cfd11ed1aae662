/** The standalone work queue, a Redis list (lithops/standalone/master.py handle_job and
    cancel_job_process, lithops/standalone/worker.py redis_queue_consumer), one caller at a
    time: tasks run in the order of submission, and cancelling a job takes out exactly its
    queued tasks. */
module WorkQueue {

  datatype Task = Task(job: string, call: nat)

  /** The tasks of a job, one for each call. */
  function Tasks(job: string, calls: seq<nat>): seq<Task> {
    seq(|calls|, i requires 0 <= i < |calls| => Task(job, calls[i]))
  }

  function Reversed<T>(s: seq<T>): seq<T> {
    if s == [] then [] else Reversed(s[1..]) + [s[0]]
  }

  /** The tasks of all jobs but one, in order. */
  function Without(tasks: seq<Task>, job: string): seq<Task> {
    if tasks == [] then [] else
      (if tasks[0].job == job then [] else [tasks[0]]) + Without(tasks[1..], job)
  }

  lemma {:induction false} ReversedConcat<T>(a: seq<T>, b: seq<T>)
    ensures Reversed(a + b) == Reversed(b) + Reversed(a)
  {
    if a == [] {
      assert a + b == b && Reversed(b) + Reversed(a) == Reversed(b);
    } else {
      assert (a + b)[1..] == a[1..] + b;
      ReversedConcat(a[1..], b);
      assert Reversed(b) + (Reversed(a[1..]) + [a[0]]) == Reversed(b) + Reversed(a[1..]) + [a[0]];
    }
  }

  lemma {:induction false} ReversedTwice<T>(s: seq<T>)
    ensures Reversed(Reversed(s)) == s && |Reversed(s)| == |s|
  {
    if s != [] {
      ReversedTwice(s[1..]);
      ReversedConcat(Reversed(s[1..]), [s[0]]);
      assert Reversed([s[0]]) == [s[0]] && [s[0]] + s[1..] == s;
    }
  }

  lemma {:induction false} WithoutConcat(a: seq<Task>, b: seq<Task>, job: string)
    ensures Without(a + b, job) == Without(a, job) + Without(b, job)
  {
    if a == [] {
      assert a + b == b;
    } else {
      assert (a + b)[1..] == a[1..] + b;
      WithoutConcat(a[1..], b, job);
    }
  }

  lemma {:induction false} WithoutReversed(tasks: seq<Task>, job: string)
    ensures Without(Reversed(tasks), job) == Reversed(Without(tasks, job))
  {
    if tasks != [] {
      WithoutReversed(tasks[1..], job);
      WithoutConcat(Reversed(tasks[1..]), [tasks[0]], job);
      var kept := if tasks[0].job == job then [] else [tasks[0]];
      assert Without([tasks[0]], job) == kept && Reversed(kept) == kept;
      ReversedConcat(kept, Without(tasks[1..], job));
    }
  }

  lemma OneMoreTaken(t: Task, taken: seq<Task>, job: string)
    ensures Reversed(Without([t] + taken, job)) == Reversed(Without(taken, job)) + if t.job == job then [] else [t]
  {
    var kept := if t.job == job then [] else [t];
    assert ([t] + taken)[1..] == taken && ([t] + taken)[0] == t;
    ReversedConcat(kept, Without(taken, job));
    assert Reversed(kept) == kept;
  }

  /** What Without keeps: every task of another job as often as before, and none of the job. */
  lemma {:induction false} WithoutCount(tasks: seq<Task>, job: string, t: Task)
    ensures multiset(Without(tasks, job))[t] == if t.job == job then 0 else multiset(tasks)[t]
  {
    if tasks != [] {
      WithoutCount(tasks[1..], job, t);
      assert tasks == [tasks[0]] + tasks[1..];
    }
  }

  /** A Redis list: `lpush` adds at the head, `rpop` takes from the tail. */
  class Queue {
    var list: seq<Task>

    constructor ()
      ensures list == []
    {
      list := [];
    }

    method LPush(t: Task)
      modifies this
      ensures list == [t] + old(list)
    {
      list := [t] + list;
    }

    method RPop() returns (t: Task)
      requires list != []
      modifies this
      ensures old(list) == list + [t]
    {
      t := list[|list| - 1];
      list := list[..|list| - 1];
    }

    /** Pushes the tasks of a job, one by one; the newest is at the head. */
    method HandleJob(job: string, calls: seq<nat>)
      modifies this
      ensures list == Reversed(Tasks(job, calls)) + old(list)
    {
      for i := 0 to |calls|
        invariant list == Reversed(Tasks(job, calls[..i])) + old(list)
      {
        LPush(Task(job, calls[i]));
        assert Tasks(job, calls[..i + 1]) == Tasks(job, calls[..i]) + [Task(job, calls[i])];
        ReversedConcat(Tasks(job, calls[..i]), [Task(job, calls[i])]);
        assert Reversed([Task(job, calls[i])]) == [Task(job, calls[i])];
        assert [Task(job, calls[i])] + (Reversed(Tasks(job, calls[..i])) + old(list)) == list;
      }
      assert calls[..|calls|] == calls;
    }

    /** Pushes back what a cancellation kept, the first taken first. */
    method Refill(tmp: seq<Task>)
      modifies this
      ensures list == Reversed(tmp) + old(list)
    {
      for i := 0 to |tmp|
        invariant list == Reversed(tmp[..i]) + old(list)
      {
        LPush(tmp[i]);
        assert tmp[..i + 1] == tmp[..i] + [tmp[i]];
        ReversedConcat(tmp[..i], [tmp[i]]);
        assert Reversed([tmp[i]]) == [tmp[i]];
        assert [tmp[i]] + (Reversed(tmp[..i]) + old(list)) == ([tmp[i]] + Reversed(tmp[..i])) + old(list);
      }
      assert tmp[..|tmp|] == tmp;
    }

    /** Drains the queue and pushes back what belongs to other jobs. */
    method CancelJob(job: string)
      modifies this
      ensures list == Without(old(list), job)
    {
      ghost var all := list;
      var tmp: seq<Task> := [];
      while |list| > 0
        invariant |list| <= |all| && list == all[..|list|]
        invariant tmp == Reversed(Without(all[|list|..], job))
      {
        ghost var n := |list|;
        var t := RPop();
        OneMoreTaken(t, all[n..], job);
        assert all[n - 1..] == [t] + all[n..];
        if t.job != job {
          tmp := tmp + [t];
        }
      }
      assert all[0..] == all;
      Refill(tmp);
      ReversedTwice(Without(all, job));
    }

    /** A consumer in `create` mode: runs until the queue is empty. */
    method Consume() returns (ran: seq<Task>)
      modifies this
      ensures list == [] && ran == Reversed(old(list))
    {
      ran := [];
      while list != []
        invariant ran + Reversed(list) == Reversed(old(list))
        decreases |list|
      {
        ghost var before := list;
        var t := RPop();
        ReversedConcat(list, [t]);
        assert Reversed([t]) == [t] && Reversed(before) == [t] + Reversed(list);
        assert ran + ([t] + Reversed(list)) == (ran + [t]) + Reversed(list);
        ran := ran + [t];
      }
    }
  }

  /** Two jobs submitted, one cancelled, the rest run: the queued tasks of the other job and
      whatever was queued before, all in their order of submission. */
  method CancelThenRun(queue: Queue, job: string, calls: seq<nat>, other: string, otherCalls: seq<nat>)
    returns (ran: seq<Task>)
    requires job != other
    modifies queue
    ensures queue.list == []
    ensures ran == Without(Reversed(old(queue.list)), job) + Tasks(other, otherCalls)
  {
    ghost var before := queue.list;
    queue.HandleJob(job, calls);
    queue.HandleJob(other, otherCalls);
    ghost var full := queue.list;
    queue.CancelJob(job);
    ran := queue.Consume();
    WithoutReversed(full, job);
    RunOrder(before, job, calls, other, otherCalls);
  }

  lemma {:induction false} AllOthers(tasks: seq<Task>, job: string)
    requires forall t :: t in tasks ==> t.job != job
    ensures Without(tasks, job) == tasks
  {
    if tasks != [] {
      AllOthers(tasks[1..], job);
    }
  }

  lemma {:induction false} NoneLeft(tasks: seq<Task>, job: string)
    requires forall t :: t in tasks ==> t.job == job
    ensures Without(tasks, job) == []
  {
    if tasks != [] {
      NoneLeft(tasks[1..], job);
    }
  }

  lemma RunOrder(before: seq<Task>, job: string, calls: seq<nat>, other: string, otherCalls: seq<nat>)
    requires job != other
    ensures var full := Reversed(Tasks(other, otherCalls)) + (Reversed(Tasks(job, calls)) + before);
            Without(Reversed(full), job) == Without(Reversed(before), job) + Tasks(other, otherCalls)
  {
    var mine, theirs := Tasks(job, calls), Tasks(other, otherCalls);
    ReversedConcat(Reversed(theirs), Reversed(mine) + before);
    ReversedConcat(Reversed(mine), before);
    ReversedTwice(mine);
    ReversedTwice(theirs);
    WithoutConcat(Reversed(before) + mine, theirs, job);
    WithoutConcat(Reversed(before), mine, job);
    AllOthers(theirs, job);
    NoneLeft(mine, job);
    assert Without(Reversed(before), job) + [] == Without(Reversed(before), job);
  }
}

/** The scheduler's chunks and the monitor's credits together (lithops/invokers.py,
    _invoke_task, and lithops/monitor.py, _generate_tokens): which chunks give their token back. */
module Credits {
  import opened Chunks
  import CallIds
  import Scheduler
  import TokenMonitor

  /** The call ids a worker is given with a chunk. */
  function CallsOf(executor: string, job: string, c: Scheduler.Chunk): set<TokenMonitor.CallId> {
    IdsOf(executor, job, c.calls)
  }

  function IdsOf(executor: string, job: string, calls: seq<nat>): set<TokenMonitor.CallId> {
    set i | i in calls :: TokenMonitor.CallId(executor, job, CallIds.Format(i))
  }

  /** As many ids as calls: different calls have different ids. */
  lemma {:induction false} IdCount(executor: string, job: string, calls: seq<nat>)
    requires forall i, j :: 0 <= i < j < |calls| ==> calls[i] != calls[j]
    ensures |IdsOf(executor, job, calls)| == |calls|
  {
    if calls == [] {
      assert IdsOf(executor, job, calls) == {};
    } else {
      var n := |calls| - 1;
      var front, last := calls[..n], calls[n];
      var id := TokenMonitor.CallId(executor, job, CallIds.Format(last));
      IdCount(executor, job, front);
      CallIds.ParseFormat(last);
      forall i | i in front
        ensures CallIds.Format(i) != CallIds.Format(last)
      {
        CallIds.ParseFormat(i);
      }
      assert calls == front + [last];
      assert IdsOf(executor, job, calls) == IdsOf(executor, job, front) + {id};
    }
  }

  lemma ChunkIdCount(executor: string, job: string, c: Scheduler.Chunk)
    requires c in Scheduler.AllChunks(c.job)
    ensures |CallsOf(executor, job, c)| == |c.calls| <= c.job.chunksize
  {
    var w :| 0 <= w < |Scheduler.AllChunks(c.job)| && Scheduler.AllChunks(c.job)[w] == c;
    MulMonotone(0, w, c.job.chunksize);
    ChunkAt(Scheduler.Range(c.job.totalCalls), c.job.chunksize, w, w * c.job.chunksize);
    IdCount(executor, job, c.calls);
  }

  /** The monitor credits the worker of a chunk, and the scheduler's token comes back, exactly
      if the chunk is full and the status of each of its calls is first seen with its init
      entry there. The job is still tracked at the last poll. */
  lemma ChunkCreditedIff(sizes: map<string, nat>, polls: seq<TokenMonitor.Poll>, w: TokenMonitor.Worker,
                         executor: string, job: string, c: Scheduler.Chunk)
    requires c in Scheduler.AllChunks(c.job) && job in sizes && sizes[job] == c.job.chunksize
    requires TokenMonitor.Consistent(polls) && polls != [] && job in polls[|polls| - 1].seen.present
    requires forall id: TokenMonitor.CallId ::
               (id, w) in TokenMonitor.SeenRunning(polls) ==> id in CallsOf(executor, job, c)
    ensures TokenMonitor.Credited(sizes, polls, w) <==>
              && |c.calls| == c.job.chunksize
              && forall id :: id in CallsOf(executor, job, c) ==> TokenMonitor.InTime(polls, w, id)
  {
    ChunkIdCount(executor, job, c);
    TokenMonitor.CreditedIffAllInTime(sizes, polls, w, job, CallsOf(executor, job, c));
  }
}

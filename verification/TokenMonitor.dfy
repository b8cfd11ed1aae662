/** The storage monitor's incremental token generation (lithops/monitor.py,
    StorageMonitor._generate_tokens): each poll hands over a snapshot of the storage and the
    monitor works on what it has not seen before only. */
module TokenMonitor {
  import opened Chunks

  datatype CallId = CallId(executor: string, job: string, call: string)

  type Worker = string

  type Index = map<CallId, Worker>

  /** What one poll sees: init entries with the worker that wrote them, calls with a status
      entry, and the jobs being tracked at that moment. */
  datatype Snapshot = Snapshot(running: set<(CallId, Worker)>, done: set<CallId>, present: set<string>)

  /** A poll: what it sees; the worker it has on record for each call after reading the new init
      entries; and the call that stands first in each worker's list after reading the new status
      entries. Both come in any order, so of two init entries of a call either may remain, and of
      the first calls listed for a worker any may stand first. */
  datatype Poll = Poll(seen: Snapshot, index: Index, first: map<Worker, CallId>)

  // ----- What the polls add up to

  function SeenRunning(polls: seq<Poll>): set<(CallId, Worker)> {
    if polls == [] then {} else SeenRunning(polls[..|polls| - 1]) + polls[|polls| - 1].seen.running
  }

  function SeenDone(polls: seq<Poll>): set<CallId> {
    if polls == [] then {} else SeenDone(polls[..|polls| - 1]) + polls[|polls| - 1].seen.done
  }

  function LastIndex(polls: seq<Poll>): Index {
    if polls == [] then map[] else polls[|polls| - 1].index
  }

  function LastFirst(polls: seq<Poll>): map<Worker, CallId> {
    if polls == [] then map[] else polls[|polls| - 1].first
  }

  ghost predicate HasEntry(entries: set<(CallId, Worker)>, c: CallId) {
    exists w: Worker :: (c, w) in entries
  }

  /** The new entries are put on record: each call with new entries gets the worker of one of
      them, every other call keeps its worker. */
  ghost predicate Reindexes(index: Index, entries: set<(CallId, Worker)>, index': Index) {
    && (forall c :: c in index' <==> c in index || HasEntry(entries, c))
    && (forall c :: c in index' ==> if HasEntry(entries, c) then (c, index'[c]) in entries else index'[c] == index[c])
  }

  /** The calls one more poll adds to a worker: first seen done now, and on record for it. */
  function NewlyDone(before: set<CallId>, done: set<CallId>, index: Index, w: Worker): set<CallId> {
    set c | c in done && c !in before && c in index && index[c] == w
  }

  /** The calls counted for a worker. */
  function Counted(polls: seq<Poll>, w: Worker): set<CallId> {
    if polls == [] then {} else
      var before := polls[..|polls| - 1];
      var poll := polls[|polls| - 1];
      Counted(before, w) + NewlyDone(SeenDone(before), poll.seen.done, poll.index, w)
  }

  /** A worker with calls counted has one of them standing first. */
  ghost predicate Leads(first: map<Worker, CallId>, polls: seq<Poll>) {
    && (forall w :: w in first <==> Counted(polls, w) != {})
    && (forall w :: w in first ==> first[w] in Counted(polls, w))
  }

  ghost predicate Keeps(first: map<Worker, CallId>, first': map<Worker, CallId>) {
    forall w :: w in first ==> w in first' && first'[w] == first[w]
  }

  /** Every poll puts on record what is new to it, and what stands first stays first. */
  ghost predicate Consistent(polls: seq<Poll>) {
    polls == [] ||
    var before, poll := polls[..|polls| - 1], polls[|polls| - 1];
    && Consistent(before) && Reindexes(LastIndex(before), poll.seen.running - SeenRunning(before), poll.index)
    && Leads(poll.first, polls) && Keeps(LastFirst(before), poll.first)
  }

  /** Whether a poll finds a worker finished: as many calls counted as the chunk size of the job
      of the first one. */
  predicate Finished(sizes: map<string, nat>, present: set<string>, first: map<Worker, CallId>,
                     counted: set<CallId>, w: Worker) {
    && w in first && first[w].job in present && first[w].job in sizes
    && |counted| == sizes[first[w].job]
  }

  /** The workers some poll found finished. */
  predicate Credited(sizes: map<string, nat>, polls: seq<Poll>, w: Worker) {
    && polls != []
    && (|| Credited(sizes, polls[..|polls| - 1], w)
        || Finished(sizes, polls[|polls| - 1].seen.present, polls[|polls| - 1].first, Counted(polls, w), w))
  }

  ghost predicate OneWorkerPerCall(running: set<(CallId, Worker)>) {
    forall c: CallId, w: Worker, w': Worker :: (c, w) in running && (c, w') in running ==> w == w'
  }

  // ----- The monitor

  predicate NoDuplicates<T(==)>(s: seq<T>) {
    forall i, j :: 0 <= i < j < |s| ==> s[i] != s[j]
  }

  ghost predicate GroupsRunning(workers: map<Worker, set<CallId>>, running: set<(CallId, Worker)>) {
    forall c: CallId, w: Worker :: (c, w) in running <==> w in workers && c in workers[w]
  }

  /** One worker's list: no call twice, no empty list. */
  predicate ListsExactly(lists: map<Worker, seq<CallId>>, w: Worker, calls: set<CallId>) {
    if w in lists then lists[w] != [] && NoDuplicates(lists[w]) && (set c | c in lists[w]) == calls
    else calls == {}
  }

  function Heads(lists: map<Worker, seq<CallId>>): map<Worker, CallId> {
    map w | w in lists && lists[w] != [] :: lists[w][0]
  }

  class StorageMonitor {
    const jobChunksize: map<string, nat>
    const generateTokens: bool
    var presentJobs: set<string>
    var workers: map<Worker, set<CallId>>
    var callidsRunningWorker: Index
    var callidsDoneWorker: map<Worker, seq<CallId>>
    var workersDone: seq<Worker>
    var callidsRunningProcessed: set<(CallId, Worker)>
    var callidsDoneProcessed: set<CallId>
    var tokenBucket: seq<string>

    constructor (jobChunksize: map<string, nat>, tokenBucket: seq<string>, generateTokens: bool)
      ensures Reflects([]) && this.generateTokens == generateTokens && this.jobChunksize == jobChunksize
      ensures this.tokenBucket == tokenBucket && workersDone == []
    {
      this.jobChunksize := jobChunksize;
      this.generateTokens := generateTokens;
      presentJobs, workers, callidsRunningWorker, callidsDoneWorker := {}, map[], map[], map[];
      workersDone, callidsRunningProcessed, callidsDoneProcessed := [], {}, {};
      this.tokenBucket := tokenBucket;
    }

    /** The fields hold what the polls so far add up to. */
    ghost predicate Reflects(polls: seq<Poll>)
      reads this
    {
      && Consistent(polls)
      && callidsRunningProcessed == SeenRunning(polls)
      && callidsDoneProcessed == SeenDone(polls)
      && callidsRunningWorker == LastIndex(polls)
      && GroupsRunning(workers, SeenRunning(polls))
      && (forall w :: ListsExactly(callidsDoneWorker, w, Counted(polls, w)))
      && Heads(callidsDoneWorker) == LastFirst(polls)
      && NoDuplicates(workersDone)
      && (forall w :: w in workersDone <==> Credited(jobChunksize, polls, w))
    }

    method RecordRunning(toProcess: set<(CallId, Worker)>, ghost seen: set<(CallId, Worker)>)
      requires GroupsRunning(workers, seen)
      modifies this`workers, this`callidsRunningWorker
      ensures GroupsRunning(workers, seen + toProcess)
      ensures Reindexes(old(callidsRunningWorker), toProcess, callidsRunningWorker)
    {
      var rest := toProcess;
      ghost var recorded: set<(CallId, Worker)> := {};
      while rest != {}
        invariant rest <= toProcess && recorded == toProcess - rest
        invariant GroupsRunning(workers, seen + recorded)
        invariant Reindexes(old(callidsRunningWorker), recorded, callidsRunningWorker)
      {
        var entry :| entry in rest;
        var (callId, workerId) := entry;
        GroupsOneMore(workers, seen + recorded, callId, workerId);
        ReindexesOneMore(old(callidsRunningWorker), recorded, callidsRunningWorker, callId, workerId);
        if workerId !in workers {
          workers := workers[workerId := {}];
        }
        workers := workers[workerId := workers[workerId] + {callId}];
        callidsRunningWorker := callidsRunningWorker[callId := workerId];
        assert seen + (recorded + {entry}) == seen + recorded + {entry};
        rest, recorded := rest - {entry}, recorded + {entry};
      }
      assert recorded == toProcess;
    }

    method RecordDone(toProcess: set<CallId>, ghost polls: seq<Poll>)
      requires forall w :: ListsExactly(callidsDoneWorker, w, Counted(polls, w))
      requires forall w, c :: c in toProcess ==> c !in Counted(polls, w)
      modifies this`callidsDoneWorker
      ensures forall w :: ListsExactly(callidsDoneWorker, w,
                                       Counted(polls, w) + NewlyDone({}, toProcess, callidsRunningWorker, w))
      ensures Keeps(old(Heads(callidsDoneWorker)), Heads(callidsDoneWorker))
    {
      var rest := toProcess;
      ghost var recorded: set<CallId> := {};
      while rest != {}
        invariant rest <= toProcess && recorded == toProcess - rest
        invariant forall w :: ListsExactly(callidsDoneWorker, w,
                                           Counted(polls, w) + NewlyDone({}, recorded, callidsRunningWorker, w))
        invariant Keeps(old(Heads(callidsDoneWorker)), Heads(callidsDoneWorker))
      {
        var callidDone :| callidDone in rest;
        if callidDone in callidsRunningWorker {
          var workerId := callidsRunningWorker[callidDone];
          ghost var before := callidsDoneWorker;
          if workerId !in callidsDoneWorker {
            callidsDoneWorker := callidsDoneWorker[workerId := []];
          }
          callidsDoneWorker := callidsDoneWorker[workerId := callidsDoneWorker[workerId] + [callidDone]];
          HeadsKept(before, callidsDoneWorker, workerId, callidDone);
          forall w
            ensures ListsExactly(callidsDoneWorker, w, Counted(polls, w)
                                 + NewlyDone({}, recorded + {callidDone}, callidsRunningWorker, w))
          {
            OneMoreDone(before, callidsDoneWorker, w, callidDone, Counted(polls, w), recorded, callidsRunningWorker);
          }
        } else {
          forall w
            ensures NewlyDone({}, recorded + {callidDone}, callidsRunningWorker, w)
                    == NewlyDone({}, recorded, callidsRunningWorker, w)
          {
          }
        }
        rest, recorded := rest - {callidDone}, recorded + {callidDone};
      }
      assert recorded == toProcess;
    }

    /** The workers found finished by this poll are added, and a token put for each. */
    method CreditWorkers(ghost counted: Worker -> set<CallId>)
      requires forall w :: ListsExactly(callidsDoneWorker, w, counted(w))
      requires presentJobs <= jobChunksize.Keys
      requires NoDuplicates(workersDone)
      modifies this`workersDone, this`tokenBucket
      ensures NoDuplicates(workersDone)
      ensures forall w :: w in workersDone <==>
                w in old(workersDone) || Finished(jobChunksize, presentJobs, Heads(callidsDoneWorker), counted(w), w)
      ensures |tokenBucket| - |old(tokenBucket)| == |workersDone| - |old(workersDone)|
      ensures old(tokenBucket) <= tokenBucket
    {
      var rest := callidsDoneWorker.Keys;
      while rest != {}
        invariant rest <= callidsDoneWorker.Keys
        invariant NoDuplicates(workersDone)
        invariant forall w :: w in workersDone <==>
                    || w in old(workersDone)
                    || (w !in rest && Finished(jobChunksize, presentJobs, Heads(callidsDoneWorker), counted(w), w))
        invariant |tokenBucket| - |old(tokenBucket)| == |workersDone| - |old(workersDone)|
        invariant old(tokenBucket) <= tokenBucket
      {
        var workerId :| workerId in rest;
        rest := rest - {workerId};
        assert ListsExactly(callidsDoneWorker, workerId, counted(workerId));
        var jobId := callidsDoneWorker[workerId][0].job;
        FinishedByFirst(jobChunksize, presentJobs, callidsDoneWorker, workerId, counted(workerId));
        if jobId !in presentJobs {
          continue;
        }
        var chunksize := jobChunksize[jobId];
        if workerId !in workersDone && |callidsDoneWorker[workerId]| == chunksize {
          workersDone := workersDone + [workerId];
          tokenBucket := tokenBucket + ["#"];
        }
      }
    }

    /** What a poll adds is recorded, and the workers it finds finished are credited. */
    method ProcessPoll(running: set<(CallId, Worker)>, done: set<CallId>, ghost polls: seq<Poll>)
      returns (ghost poll: Poll)
      requires Reflects(polls) && presentJobs <= jobChunksize.Keys
      modifies this`workers, this`callidsRunningWorker, this`callidsDoneWorker, this`workersDone,
               this`callidsRunningProcessed, this`callidsDoneProcessed, this`tokenBucket
      ensures poll.seen == Snapshot(running, done, presentJobs) && Reflects(polls + [poll])
      ensures |tokenBucket| - |old(tokenBucket)| == |workersDone| - |old(workersDone)|
      ensures old(tokenBucket) <= tokenBucket
    {
      var runningToProcess := running - callidsRunningProcessed;
      var doneToProcess := done - callidsDoneProcessed;
      RecordRunning(runningToProcess, SeenRunning(polls));
      NothingDoneAgain(polls, doneToProcess);
      RecordDone(doneToProcess, polls);
      poll := Poll(Snapshot(running, done, presentJobs), callidsRunningWorker, Heads(callidsDoneWorker));
      ghost var polls' := polls + [poll];
      assert polls'[..|polls'| - 1] == polls;
      OnePollMore(jobChunksize, polls, polls', runningToProcess, doneToProcess);
      HeadsLead(callidsDoneWorker, polls');
      StillConsistent(polls, polls');
      CreditWorkers(w => Counted(polls', w));
      callidsRunningProcessed := callidsRunningProcessed + runningToProcess;
      callidsDoneProcessed := callidsDoneProcessed + doneToProcess;
    }

    /** One poll; `polls'` are the polls with this one, if it is not skipped. */
    method GenerateTokens(running: set<(CallId, Worker)>, done: set<CallId>, ghost polls: seq<Poll>)
      returns (ghost polls': seq<Poll>)
      requires Reflects(polls) && presentJobs <= jobChunksize.Keys
      modifies this`workers, this`callidsRunningWorker, this`callidsDoneWorker, this`workersDone,
               this`callidsRunningProcessed, this`callidsDoneProcessed, this`tokenBucket
      ensures Reflects(polls')
      ensures if generateTokens
              then |polls'| == |polls| + 1 && polls' == polls + [polls'[|polls|]]
                   && polls'[|polls|].seen == Snapshot(running, done, presentJobs)
              else polls' == polls
      ensures |tokenBucket| - |old(tokenBucket)| == |workersDone| - |old(workersDone)|
      ensures old(tokenBucket) <= tokenBucket
    {
      polls' := polls;
      if !generateTokens {
        return;
      }
      ghost var poll := ProcessPoll(running, done, polls);
      polls' := polls + [poll];
    }

    /** The polling loop: after any number of polls the workers done are those credited, each
        once, and each put one token. */
    method Run(snapshots: seq<Snapshot>) returns (ghost polls: seq<Poll>)
      requires Reflects([]) && generateTokens && workersDone == []
      requires forall i :: 0 <= i < |snapshots| ==> snapshots[i].present <= jobChunksize.Keys
      modifies this
      ensures Sees(polls, snapshots) && Reflects(polls)
      ensures |tokenBucket| == |old(tokenBucket)| + |workersDone| && old(tokenBucket) <= tokenBucket
    {
      polls := [];
      var n := 0;
      while n < |snapshots|
        invariant 0 <= n <= |snapshots|
        invariant Sees(polls, snapshots[..n]) && Reflects(polls)
        invariant |tokenBucket| == |old(tokenBucket)| + |workersDone| && old(tokenBucket) <= tokenBucket
      {
        presentJobs := snapshots[n].present;
        assert snapshots[..n + 1][..n] == snapshots[..n];
        polls := GenerateTokens(snapshots[n].running, snapshots[n].done, polls);
        n := n + 1;
      }
      assert snapshots[..n] == snapshots;
    }
  }

  /** The polls see the snapshots, one each. */
  predicate Sees(polls: seq<Poll>, snapshots: seq<Snapshot>) {
    |polls| == |snapshots| && forall i :: 0 <= i < |polls| ==> polls[i].seen == snapshots[i]
  }

  lemma GroupsOneMore(workers: map<Worker, set<CallId>>, running: set<(CallId, Worker)>, c: CallId, w: Worker)
    requires GroupsRunning(workers, running)
    ensures GroupsRunning(workers[w := (if w in workers then workers[w] else {}) + {c}], running + {(c, w)})
  {
  }

  lemma ReindexesOneMore(index: Index, entries: set<(CallId, Worker)>, index': Index, c: CallId, w: Worker)
    requires Reindexes(index, entries, index')
    ensures Reindexes(index, entries + {(c, w)}, index'[c := w])
  {
    forall d
      ensures HasEntry(entries + {(c, w)}, d) <==> HasEntry(entries, d) || d == c
    {
      if d == c {
        assert (d, w) in entries + {(c, w)};
      } else if HasEntry(entries, d) {
        var v :| (d, v) in entries;
        assert (d, v) in entries + {(c, w)};
      }
    }
  }

  lemma OneMoreDone(before: map<Worker, seq<CallId>>, after: map<Worker, seq<CallId>>, w: Worker,
                    c: CallId, counted: set<CallId>, recorded: set<CallId>, index: Index)
    requires ListsExactly(before, w, counted + NewlyDone({}, recorded, index, w))
    requires c in index && c !in counted && c !in recorded
    requires after == before[index[c] := (if index[c] in before then before[index[c]] else []) + [c]]
    ensures ListsExactly(after, w, counted + NewlyDone({}, recorded + {c}, index, w))
  {
    var was := NewlyDone({}, recorded, index, w);
    var now := NewlyDone({}, recorded + {c}, index, w);
    if w == index[c] {
      assert now == was + {c};
      assert forall d :: d in after[w] <==> d == c || (w in before && d in before[w]);
      assert (set d | d in after[w]) == counted + was + {c};
    } else {
      assert now == was;
    }
  }

  lemma HeadsKept(before: map<Worker, seq<CallId>>, after: map<Worker, seq<CallId>>, w: Worker, c: CallId)
    requires after == before[w := (if w in before then before[w] else []) + [c]]
    ensures Keeps(Heads(before), Heads(after))
  {
  }

  lemma HeadsLead(lists: map<Worker, seq<CallId>>, polls: seq<Poll>)
    requires forall w :: ListsExactly(lists, w, Counted(polls, w))
    ensures Leads(Heads(lists), polls)
  {
    forall w
      ensures w in Heads(lists) <==> Counted(polls, w) != {}
      ensures w in Heads(lists) ==> Heads(lists)[w] in Counted(polls, w)
    {
      assert ListsExactly(lists, w, Counted(polls, w));
      if w in lists {
        assert lists[w][0] in lists[w];
        assert lists[w][0] in (set c | c in lists[w]);
        assert lists[w][0] in Counted(polls, w);
      }
    }
  }

  lemma {:induction false} DistinctCount(s: seq<CallId>)
    requires NoDuplicates(s)
    ensures |set c | c in s| == |s|
  {
    if s == [] {
      assert (set c | c in s) == {};
    } else {
      var front, last := s[..|s| - 1], s[|s| - 1];
      DistinctCount(front);
      assert s == front + [last];
      assert (set c | c in s) == (set c | c in front) + {last};
    }
  }

  /** The first call of a worker's list decides, and the list is as long as the set. */
  lemma FinishedByFirst(sizes: map<string, nat>, present: set<string>, lists: map<Worker, seq<CallId>>, w: Worker,
                        counted: set<CallId>)
    requires w in lists && ListsExactly(lists, w, counted) && present <= sizes.Keys
    ensures Finished(sizes, present, Heads(lists), counted, w) <==>
              lists[w][0].job in present && |lists[w]| == sizes[lists[w][0].job]
  {
    DistinctCount(lists[w]);
  }

  /** What is on record is what has been seen. */
  lemma {:induction false} OnRecord(polls: seq<Poll>)
    requires Consistent(polls)
    ensures forall c :: c in LastIndex(polls) <==> HasEntry(SeenRunning(polls), c)
    ensures forall c :: c in LastIndex(polls) ==> (c, LastIndex(polls)[c]) in SeenRunning(polls)
  {
    if polls != [] {
      var before, seen := polls[..|polls| - 1], polls[|polls| - 1].seen.running;
      OnRecord(before);
      forall c
        ensures HasEntry(SeenRunning(polls), c) <==>
                  HasEntry(SeenRunning(before), c) || HasEntry(seen - SeenRunning(before), c)
      {
        if w :| (c, w) in SeenRunning(polls) {
          assert (c, w) in SeenRunning(before) || (c, w) in seen - SeenRunning(before);
        }
        if w :| (c, w) in SeenRunning(before) {
          assert (c, w) in SeenRunning(polls);
        }
        if w :| (c, w) in seen - SeenRunning(before) {
          assert (c, w) in SeenRunning(polls);
        }
      }
    }
  }

  lemma {:induction false} CountedSeen(polls: seq<Poll>, w: Worker)
    requires Consistent(polls)
    ensures Counted(polls, w) <= SeenDone(polls)
    ensures forall c :: c in Counted(polls, w) ==> (c, w) in SeenRunning(polls)
  {
    if polls != [] {
      var before := polls[..|polls| - 1];
      CountedSeen(before, w);
      OnRecord(polls);
      forall c | c in Counted(polls, w)
        ensures (c, w) in SeenRunning(polls)
      {
        assert c !in Counted(before, w) ==> c in LastIndex(polls) && LastIndex(polls)[c] == w;
      }
    }
  }

  lemma NothingDoneAgain(polls: seq<Poll>, toProcess: set<CallId>)
    requires Consistent(polls) && toProcess !! SeenDone(polls)
    ensures forall w, c :: c in toProcess ==> c !in Counted(polls, w)
  {
    forall w, c | c in toProcess
      ensures c !in Counted(polls, w)
    {
      CountedSeen(polls, w);
    }
  }

  lemma StillConsistent(polls: seq<Poll>, polls': seq<Poll>)
    requires polls' != [] && polls'[..|polls'| - 1] == polls && Consistent(polls)
    requires Reindexes(LastIndex(polls), polls'[|polls'| - 1].seen.running - SeenRunning(polls), LastIndex(polls'))
    requires Keeps(LastFirst(polls), LastFirst(polls')) && Leads(LastFirst(polls'), polls')
    ensures Consistent(polls')
  {
  }

  lemma OnePollMore(sizes: map<string, nat>, polls: seq<Poll>, polls': seq<Poll>,
                    runningToProcess: set<(CallId, Worker)>, doneToProcess: set<CallId>)
    requires polls' != [] && polls'[..|polls'| - 1] == polls && Consistent(polls)
    requires runningToProcess == polls'[|polls'| - 1].seen.running - SeenRunning(polls)
    requires doneToProcess == polls'[|polls'| - 1].seen.done - SeenDone(polls)
    requires Reindexes(LastIndex(polls), runningToProcess, LastIndex(polls'))
    ensures SeenRunning(polls') == SeenRunning(polls) + runningToProcess
    ensures SeenDone(polls') == SeenDone(polls) + doneToProcess
    ensures forall w :: Counted(polls, w) + NewlyDone({}, doneToProcess, LastIndex(polls'), w) == Counted(polls', w)
    ensures forall w :: Credited(sizes, polls', w) <==>
              || Credited(sizes, polls, w)
              || Finished(sizes, polls'[|polls'| - 1].seen.present, LastFirst(polls'), Counted(polls', w), w)
  {
  }

  lemma {:induction false} SeenGrows(polls: seq<Poll>, n: nat)
    requires n <= |polls|
    ensures SeenRunning(polls[..n]) <= SeenRunning(polls) && SeenDone(polls[..n]) <= SeenDone(polls)
    decreases |polls| - n
  {
    if n < |polls| {
      SeenGrows(polls, n + 1);
      assert polls[..n + 1][..n] == polls[..n];
    } else {
      assert polls[..n] == polls;
    }
  }

  // ----- Against the batch count

  /** A batch count on everything seen. */
  function BatchDone(running: set<(CallId, Worker)>, done: set<CallId>, w: Worker): set<CallId> {
    set c | c in done && (c, w) in running
  }

  /** Poll i is the first to see call c done. */
  predicate FirstSeen(polls: seq<Poll>, i: nat, c: CallId) {
    i < |polls| && c in polls[i].seen.done && c !in SeenDone(polls[..i])
  }

  /** The init entries seen up to poll i. */
  function RunningAt(polls: seq<Poll>, i: nat): set<(CallId, Worker)>
    requires i < |polls|
  {
    SeenRunning(polls[..i + 1])
  }

  /** Poll i has worker w on record for call c. */
  predicate RecordedAt(polls: seq<Poll>, i: nat, c: CallId, w: Worker) {
    i < |polls| && c in polls[i].index && polls[i].index[c] == w
  }

  /** A call is done in time for w: w is on record for it when its status is first seen. */
  ghost predicate InTime(polls: seq<Poll>, w: Worker, c: CallId) {
    exists i: nat :: FirstSeen(polls, i, c) && RecordedAt(polls, i, c, w)
  }

  lemma SamePast(polls: seq<Poll>, before: seq<Poll>, i: nat, c: CallId)
    requires i < |before| <= |polls| && before == polls[..|before|]
    ensures FirstSeen(before, i, c) <==> FirstSeen(polls, i, c)
    ensures RunningAt(before, i) == RunningAt(polls, i)
  {
    assert before[..i] == polls[..i] && before[..i + 1] == polls[..i + 1];
  }

  lemma {:induction false} ConsistentBefore(polls: seq<Poll>, n: nat)
    requires Consistent(polls) && n <= |polls|
    ensures Consistent(polls[..n])
  {
    if n < |polls| {
      ConsistentBefore(polls[..|polls| - 1], n);
      assert polls[..|polls| - 1][..n] == polls[..n];
    } else {
      assert polls[..n] == polls;
    }
  }

  /** The worker on record for a call wrote an init entry for it; if no other worker wrote one,
      a worker is on record exactly once its entry has been seen. */
  lemma RecordedIffRunning(polls: seq<Poll>, i: nat, c: CallId, w: Worker)
    requires Consistent(polls) && i < |polls|
    ensures RecordedAt(polls, i, c, w) ==> (c, w) in RunningAt(polls, i)
    ensures c in polls[i].index <==> HasEntry(RunningAt(polls, i), c)
    ensures (forall v :: (c, v) in RunningAt(polls, i) ==> v == w) ==>
              (RecordedAt(polls, i, c, w) <==> (c, w) in RunningAt(polls, i))
  {
    ConsistentBefore(polls, i + 1);
    OnRecord(polls[..i + 1]);
    assert LastIndex(polls[..i + 1]) == polls[i].index;
  }

  /** Which calls the increments count for a worker: those done in time for it. */
  lemma {:induction false} CountedIff(polls: seq<Poll>, w: Worker, c: CallId)
    ensures c in Counted(polls, w) <==> InTime(polls, w, c)
  {
    if polls != [] {
      var n := |polls| - 1;
      var before := polls[..n];
      CountedIff(before, w, c);
      forall i: nat | i < n
        ensures FirstSeen(before, i, c) <==> FirstSeen(polls, i, c)
        ensures RecordedAt(before, i, c, w) <==> RecordedAt(polls, i, c, w)
      {
        SamePast(polls, before, i, c);
      }
      assert c in Counted(polls, w) <==>
             c in Counted(before, w) || (FirstSeen(polls, n, c) && RecordedAt(polls, n, c, w));
    }
  }

  /** A call is counted for one worker at most, whoever wrote init entries for it. */
  lemma CountedForOne(polls: seq<Poll>, c: CallId, w: Worker, v: Worker)
    requires c in Counted(polls, w) && c in Counted(polls, v)
    ensures w == v
  {
    CountedIff(polls, w, c);
    CountedIff(polls, v, c);
    var i: nat :| FirstSeen(polls, i, c) && RecordedAt(polls, i, c, w);
    var k: nat :| FirstSeen(polls, k, c) && RecordedAt(polls, k, c, v);
    SeenOnce(polls, i, k, c);
  }

  /** It is counted for one exactly if some init entry of it is there when its status is first
      seen, at poll i. */
  lemma CountedIffEntry(polls: seq<Poll>, c: CallId, i: nat)
    requires Consistent(polls) && FirstSeen(polls, i, c)
    ensures (exists w :: c in Counted(polls, w)) <==> HasEntry(RunningAt(polls, i), c)
  {
    if w :| c in Counted(polls, w) {
      CountedIff(polls, w, c);
      var k: nat :| FirstSeen(polls, k, c) && RecordedAt(polls, k, c, w);
      SeenOnce(polls, i, k, c);
      RecordedIffRunning(polls, i, c, w);
    }
    if w :| (c, w) in RunningAt(polls, i) {
      RecordedIffRunning(polls, i, c, w);
      var v := polls[i].index[c];
      assert RecordedAt(polls, i, c, v);
      CountedIff(polls, v, c);
    }
  }

  lemma SeenOnce(polls: seq<Poll>, i: nat, k: nat, c: CallId)
    requires FirstSeen(polls, i, c) && FirstSeen(polls, k, c)
    ensures i == k
  {
    FirstSeenBefore(polls, i, k, c);
    FirstSeenBefore(polls, k, i, c);
  }

  /** Every call done has an init entry by the time its status is first seen. */
  ghost predicate InitBeforeDone(polls: seq<Poll>) {
    forall i: nat, c: CallId :: FirstSeen(polls, i, c) ==> HasEntry(RunningAt(polls, i), c)
  }

  /** The increments agree with the batch count. */
  lemma CountedIsBatch(polls: seq<Poll>, w: Worker)
    requires Consistent(polls) && OneWorkerPerCall(SeenRunning(polls)) && InitBeforeDone(polls)
    ensures Counted(polls, w) == BatchDone(SeenRunning(polls), SeenDone(polls), w)
  {
    CountedSeen(polls, w);
    forall c | c in SeenDone(polls) && (c, w) in SeenRunning(polls)
      ensures c in Counted(polls, w)
    {
      var i := FirstDone(polls, c);
      assert FirstSeen(polls, i, c);
      CountedIffEntry(polls, c, i);
      var v :| c in Counted(polls, v);
      CountedSeen(polls, v);
      assert (c, v) in SeenRunning(polls);
    }
  }

  lemma {:induction false} FirstDone(polls: seq<Poll>, c: CallId) returns (i: nat)
    requires c in SeenDone(polls)
    ensures FirstSeen(polls, i, c)
  {
    var n := |polls| - 1;
    if c in SeenDone(polls[..n]) {
      i := FirstDone(polls[..n], c);
      SamePast(polls, polls[..n], i, c);
    } else {
      i := n;
    }
  }

  /** Poll i finds worker w finished. */
  predicate FinishedAt(sizes: map<string, nat>, polls: seq<Poll>, i: nat, w: Worker) {
    i < |polls| && Finished(sizes, polls[i].seen.present, polls[i].first, Counted(polls[..i + 1], w), w)
  }

  lemma {:induction false} CreditedWhen(sizes: map<string, nat>, polls: seq<Poll>, w: Worker)
    ensures Credited(sizes, polls, w) <==> exists i: nat :: FinishedAt(sizes, polls, i, w)
  {
    if polls != [] {
      var n := |polls| - 1;
      var before := polls[..n];
      CreditedWhen(sizes, before, w);
      forall i: nat | i < n
        ensures FinishedAt(sizes, before, i, w) <==> FinishedAt(sizes, polls, i, w)
      {
        assert before[..i + 1] == polls[..i + 1];
      }
      assert polls[..n + 1] == polls;
      assert Credited(sizes, polls, w) <==> Credited(sizes, before, w) || FinishedAt(sizes, polls, n, w);
    }
  }

  lemma {:induction false} CountedGrows(polls: seq<Poll>, n: nat, w: Worker)
    requires n <= |polls|
    ensures Counted(polls[..n], w) <= Counted(polls, w)
    decreases |polls| - n
  {
    if n < |polls| {
      CountedGrows(polls, n + 1, w);
      assert polls[..n + 1][..n] == polls[..n];
    } else {
      assert polls[..n] == polls;
    }
  }

  lemma SubsetSize<T>(a: set<T>, b: set<T>)
    requires a <= b
    ensures |a| <= |b|
  {
    assert b == a + (b - a);
  }

  /** Poll i sees the job tracked, and as many calls counted for w as the job's chunk size. */
  predicate FullAt(polls: seq<Poll>, i: nat, w: Worker, job: string, size: nat) {
    i < |polls| && job in polls[i].seen.present && |Counted(polls[..i + 1], w)| == size
  }

  /** For a worker that is given calls of one job: it is credited exactly if at some poll the
      job is tracked and its count is the chunk size, so that a job taken out of the monitor
      before earns no token. */
  lemma CreditedIffFullAt(sizes: map<string, nat>, polls: seq<Poll>, w: Worker, job: string)
    requires Consistent(polls) && job in sizes && sizes[job] > 0
    requires forall c :: c in Counted(polls, w) ==> c.job == job
    ensures Credited(sizes, polls, w) <==> exists i: nat :: FullAt(polls, i, w, job, sizes[job])
  {
    CreditedWhen(sizes, polls, w);
    forall i: nat | i < |polls|
      ensures FinishedAt(sizes, polls, i, w) <==> FullAt(polls, i, w, job, sizes[job])
    {
      FirstAt(polls, i, w);
      CountedGrows(polls, i + 1, w);
    }
  }

  /** For a worker that is given calls of one job, and no more than the job's chunk size of
      them, only the calls counted in the end matter. */
  lemma CreditedIffCounted(sizes: map<string, nat>, polls: seq<Poll>, w: Worker, job: string)
    requires Consistent(polls)
    requires polls != [] && job in polls[|polls| - 1].seen.present && job in sizes && sizes[job] > 0
    requires forall c :: c in Counted(polls, w) ==> c.job == job
    requires |Counted(polls, w)| <= sizes[job]
    ensures Credited(sizes, polls, w) <==> |Counted(polls, w)| == sizes[job]
  {
    var n := |polls| - 1;
    CreditedWhen(sizes, polls, w);
    assert polls[..n + 1] == polls;
    if |Counted(polls, w)| == sizes[job] {
      FirstAt(polls, n, w);
      assert polls[n].first[w].job == job;
      assert FinishedAt(sizes, polls, n, w);
    }
    if i: nat :| FinishedAt(sizes, polls, i, w) {
      FinishedNeeds(sizes, polls, i, w, job);
    }
  }

  lemma FirstAt(polls: seq<Poll>, i: nat, w: Worker)
    requires Consistent(polls) && i < |polls|
    ensures w in polls[i].first <==> Counted(polls[..i + 1], w) != {}
    ensures w in polls[i].first ==> polls[i].first[w] in Counted(polls[..i + 1], w)
  {
    ConsistentBefore(polls, i + 1);
    assert Leads(polls[i].first, polls[..i + 1]);
  }

  /** What a poll needs to find a worker finished that only has calls of one job. */
  lemma FinishedNeeds(sizes: map<string, nat>, polls: seq<Poll>, i: nat, w: Worker, job: string)
    requires Consistent(polls) && FinishedAt(sizes, polls, i, w)
    requires forall c :: c in Counted(polls, w) ==> c.job == job
    ensures job in sizes && sizes[job] <= |Counted(polls, w)|
  {
    FirstAt(polls, i, w);
    CountedGrows(polls, i + 1, w);
    SubsetSize(Counted(polls[..i + 1], w), Counted(polls, w));
  }

  lemma CountedGiven(polls: seq<Poll>, w: Worker)
    requires Consistent(polls)
    ensures Counted(polls, w) <= set e | e in SeenRunning(polls) && e.1 == w :: e.0
  {
    CountedSeen(polls, w);
    forall c | c in Counted(polls, w)
      ensures c in set e | e in SeenRunning(polls) && e.1 == w :: e.0
    {
      assert (c, w) in SeenRunning(polls) && (c, w).1 == w && (c, w).0 == c;
    }
  }

  /** The workers credited are exactly those that have done a whole chunk: a worker is given
      calls of one job and no more than the job's chunk size of them. */
  lemma CreditedIffChunkDone(sizes: map<string, nat>, polls: seq<Poll>, w: Worker, job: string)
    requires Consistent(polls) && OneWorkerPerCall(SeenRunning(polls)) && InitBeforeDone(polls)
    requires polls != [] && job in polls[|polls| - 1].seen.present && job in sizes && sizes[job] > 0
    requires forall c: CallId :: (c, w) in SeenRunning(polls) ==> c.job == job
    requires |set e | e in SeenRunning(polls) && e.1 == w :: e.0| <= sizes[job]
    ensures Credited(sizes, polls, w) <==> |BatchDone(SeenRunning(polls), SeenDone(polls), w)| == sizes[job]
  {
    CountedIsBatch(polls, w);
    CountedSeen(polls, w);
    CountedGiven(polls, w);
    SubsetSize(Counted(polls, w), set e | e in SeenRunning(polls) && e.1 == w :: e.0);
    CreditedIffCounted(sizes, polls, w, job);
  }

  /** A worker that is given the calls of one chunk, and no others, is credited exactly if the
      chunk is full and all its calls are done in time. */
  lemma CreditedIffAllInTime(sizes: map<string, nat>, polls: seq<Poll>, w: Worker, job: string, calls: set<CallId>)
    requires Consistent(polls)
    requires polls != [] && job in polls[|polls| - 1].seen.present && job in sizes && sizes[job] > 0
    requires |calls| <= sizes[job] && forall c :: c in calls ==> c.job == job
    requires forall c: CallId :: (c, w) in SeenRunning(polls) ==> c in calls
    ensures Credited(sizes, polls, w) <==> |calls| == sizes[job] && forall c :: c in calls ==> InTime(polls, w, c)
  {
    CountedSeen(polls, w);
    assert Counted(polls, w) <= calls;
    SubsetSize(Counted(polls, w), calls);
    CreditedIffCounted(sizes, polls, w, job);
    forall c
      ensures c in Counted(polls, w) <==> InTime(polls, w, c)
    {
      CountedIff(polls, w, c);
    }
    if |Counted(polls, w)| == |calls| {
      SameSize(Counted(polls, w), calls);
    } else {
      assert Counted(polls, w) != calls;
    }
  }

  lemma SameSize<T>(a: set<T>, b: set<T>)
    requires a <= b && |a| == |b|
    ensures a == b
  {
    assert b == a + (b - a) && |b - a| == 0;
  }

  /** When storage only grows, the last snapshot alone decides. */
  lemma {:induction false} LastSnapshot(polls: seq<Poll>)
    requires polls != []
    requires forall i :: 0 < i < |polls| ==>
              polls[i - 1].seen.running <= polls[i].seen.running && polls[i - 1].seen.done <= polls[i].seen.done
    ensures SeenRunning(polls) == polls[|polls| - 1].seen.running
    ensures SeenDone(polls) == polls[|polls| - 1].seen.done
  {
    if |polls| > 1 {
      LastSnapshot(polls[..|polls| - 1]);
    }
  }

  /** A done call whose init entry came late is lost to its worker for good, so a chunk with
      such a call never gives its token back. */
  lemma LateInitNeverCredited(sizes: map<string, nat>, polls: seq<Poll>, w: Worker, job: string, late: CallId,
                              i: nat)
    requires Consistent(polls)
    requires i < |polls| && late in polls[i].seen.done && (late, w) !in RunningAt(polls, i)
    requires (late, w) in SeenRunning(polls) && job in sizes
    requires forall c: CallId :: (c, w) in SeenRunning(polls) ==> c.job == job
    requires |set e | e in SeenRunning(polls) && e.1 == w :: e.0| <= sizes[job]
    ensures !Credited(sizes, polls, w)
  {
    var given := set e | e in SeenRunning(polls) && e.1 == w :: e.0;
    CountedSeen(polls, w);
    LateNotCounted(polls, w, late, i);
    forall c | c in Counted(polls, w)
      ensures c in given - {late}
    {
      assert (c, w) in SeenRunning(polls) && (c, w).1 == w && (c, w).0 == c;
    }
    assert late in given by {
      assert (late, w).1 == w && (late, w).0 == late;
    }
    SubsetSize(Counted(polls, w), given - {late});
    CreditedWhen(sizes, polls, w);
    if k: nat :| FinishedAt(sizes, polls, k, w) {
      FinishedNeeds(sizes, polls, k, w, job);
    }
  }

  lemma LateNotCounted(polls: seq<Poll>, w: Worker, late: CallId, i: nat)
    requires Consistent(polls)
    requires i < |polls| && late in polls[i].seen.done && (late, w) !in RunningAt(polls, i)
    ensures late !in Counted(polls, w)
  {
    CountedIff(polls, w, late);
    forall k: nat | FirstSeen(polls, k, late)
      ensures !RecordedAt(polls, k, late, w)
    {
      RecordedIffRunning(polls, k, late, w);
      FirstSeenBefore(polls, k, i, late);
      SeenGrows(polls[..i + 1], k + 1);
      assert polls[..i + 1][..k + 1] == polls[..k + 1];
    }
  }

  lemma {:induction false} FirstSeenBefore(polls: seq<Poll>, k: nat, i: nat, c: CallId)
    requires FirstSeen(polls, k, c) && i < |polls| && c in polls[i].seen.done
    ensures k <= i
  {
    SeenGrows(polls[..k], Min(i + 1, k));
    assert polls[..k][..Min(i + 1, k)] == polls[..Min(i + 1, k)];
    assert polls[..i + 1][..i] == polls[..i] && c in SeenDone(polls[..i + 1]);
  }
}

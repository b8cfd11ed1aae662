/** The storage keys of call statuses and how they are read back
    (lithops/storage/utils.py create_*_key, lithops/storage/storage.py get_job_status). */
module StorageKeys {
  import opened Strings

  const JOBS_PREFIX := "lithops.jobs"
  const STATUS_SUFFIX := "status.json"
  const INIT_SUFFIX := ".init"

  function JobKey(executor: string, job: string): string {
    executor + ['-'] + job
  }

  function StatusKey(executor: string, job: string, call: string): string {
    Join([JOBS_PREFIX, JobKey(executor, job), call, STATUS_SUFFIX], '/')
  }

  function InitKey(executor: string, job: string, call: string, activation: string): string {
    Join([JOBS_PREFIX, JobKey(executor, job), call, activation + INIT_SUFFIX], '/')
  }

  // ----- Reading

  type CallId = seq<string>

  datatype JobStatus =
    | JobStatus(running: set<(CallId, string)>, done: set<CallId>)
    | IndexError

  predicate IsInit(key: string) {
    Contains(key, INIT_SUFFIX)
  }

  predicate IsDone(key: string) {
    Contains(key, STATUS_SUFFIX)
  }

  function CallOf(parts: seq<string>): CallId
    requires |parts| >= 3
  {
    RsplitOnce(parts[1], '-') + [parts[2]]
  }

  function Running(key: string): (CallId, string)
    requires |Split(key, '/')| >= 4
  {
    var parts := Split(key, '/');
    (CallOf(parts), Remove(parts[3], INIT_SUFFIX))
  }

  function Done(key: string): CallId
    requires |Split(key, '/')| >= 3
  {
    CallOf(Split(key, '/'))
  }

  predicate Readable(key: string) {
    (IsInit(key) ==> |Split(key, '/')| >= 4) && (IsDone(key) ==> |Split(key, '/')| >= 3)
  }

  /** get_job_status, on the keys that were listed. */
  function GetJobStatus(keys: set<string>): JobStatus {
    if forall k :: k in keys ==> Readable(k) then
      JobStatus(set k | k in keys && IsInit(k) :: Running(k), set k | k in keys && IsDone(k) :: Done(k))
    else IndexError
  }

  // ----- Writing

  /** What is in the bucket: entries of calls, and keys of anything else. */
  datatype Entry =
    | Init(executor: string, job: string, call: string, activation: string)
    | Status(executor: string, job: string, call: string)
    | Other(key: string)

  function KeyOf(e: Entry): string {
    match e
    case Init(x, j, c, a) => InitKey(x, j, c, a)
    case Status(x, j, c) => StatusKey(x, j, c)
    case Other(key) => key
  }

  predicate Plain(part: string) {
    '/' !in part && !Contains(part, INIT_SUFFIX) && !Contains(part, STATUS_SUFFIX)
  }

  /** No '/' and no suffix text in a part, no '-' in a job id; executor ids may have some. */
  predicate WellFormed(e: Entry) {
    match e
    case Init(x, j, c, a) => Plain(x) && Plain(j) && '-' !in j && Plain(c) && Plain(a)
    case Status(x, j, c) => Plain(x) && Plain(j) && '-' !in j && Plain(c)
    case Other(key) => !IsInit(key) && !IsDone(key)
  }

  /** `list_keys` with the prefix of an executor. */
  predicate Listed(executor: string, e: Entry) {
    StartsWith(KeyOf(e), Join([JOBS_PREFIX, executor], '/'))
  }

  function ListKeys(entries: set<Entry>, executor: string): set<string> {
    set e | e in entries && Listed(executor, e) :: KeyOf(e)
  }

  lemma LiteralSuffixes()
    ensures !Contains(JOBS_PREFIX, INIT_SUFFIX) && !Contains(JOBS_PREFIX, STATUS_SUFFIX)
    ensures !Contains(STATUS_SUFFIX, INIT_SUFFIX) && Contains(STATUS_SUFFIX, STATUS_SUFFIX)
  {
    forall i | 0 <= i <= |JOBS_PREFIX|
      ensures !HasAt(JOBS_PREFIX, i, INIT_SUFFIX)
    {
      NotAt(JOBS_PREFIX, i, INIT_SUFFIX, if i == 7 then 1 else 0);
    }
    forall i | 0 <= i <= |JOBS_PREFIX|
      ensures !HasAt(JOBS_PREFIX, i, STATUS_SUFFIX)
    {
      NotAt(JOBS_PREFIX, i, STATUS_SUFFIX, if i == 6 || i == 11 then 1 else 0);
    }
    forall i | 0 <= i <= |STATUS_SUFFIX|
      ensures !HasAt(STATUS_SUFFIX, i, INIT_SUFFIX)
    {
      NotAt(STATUS_SUFFIX, i, INIT_SUFFIX, if i == 6 then 1 else 0);
    }
    assert HasAt(STATUS_SUFFIX, 0, STATUS_SUFFIX);
  }

  /** The activation id is what comes before the suffix. */
  lemma {:induction false} InitSuffixRemoved(a: string)
    requires !Contains(a, INIT_SUFFIX)
    ensures Remove(a + INIT_SUFFIX, INIT_SUFFIX) == a
  {
    var s := a + INIT_SUFFIX;
    if a == "" {
      assert s == INIT_SUFFIX && HasAt(s, 0, INIT_SUFFIX) && s[5..] == "";
    } else {
      InitNotEarlier(a, 0);
      assert s[1..] == a[1..] + INIT_SUFFIX;
      forall i | 0 <= i <= |a[1..]|
        ensures !HasAt(a[1..], i, INIT_SUFFIX)
      {
        LaterAt(a, i, INIT_SUFFIX);
      }
      InitSuffixRemoved(a[1..]);
      assert [a[0]] + a[1..] == a;
    }
  }

  lemma LaterAt(s: string, i: nat, t: string)
    requires s != ""
    ensures HasAt(s[1..], i, t) <==> HasAt(s, i + 1, t)
  {
    if i + 1 + |t| <= |s| {
      assert s[1..][i..i + |t|] == s[i + 1..i + 1 + |t|];
    }
  }

  lemma InitNotEarlier(a: string, i: nat)
    requires i < |a| && !Contains(a, INIT_SUFFIX)
    ensures !HasAt(a + INIT_SUFFIX, i, INIT_SUFFIX)
  {
    var s := a + INIT_SUFFIX;
    if i + 5 <= |a| {
      assert !HasAt(a, i, INIT_SUFFIX);
      assert s[i..i + 5] == a[i..i + 5];
    } else {
      NotAt(s, i, INIT_SUFFIX, |a| - i);
    }
  }

  lemma InitLast(a: string)
    requires Plain(a)
    ensures Contains(a + INIT_SUFFIX, INIT_SUFFIX) && !Contains(a + INIT_SUFFIX, STATUS_SUFFIX)
    ensures '/' !in a + INIT_SUFFIX
  {
    var s := a + INIT_SUFFIX;
    assert s[|a|..|a| + 5] == INIT_SUFFIX;
    assert HasAt(s, |a|, INIT_SUFFIX);
    forall i | 0 <= i <= |s|
      ensures !HasAt(s, i, STATUS_SUFFIX)
    {
      if i + 11 <= |a| {
        assert !HasAt(a, i, STATUS_SUFFIX);
        assert s[i..i + 11] == a[i..i + 11];
      } else if i <= |a| {
        // The '.' of the suffix would have to be a letter of "status.json" or be followed by 'j'.
        NotAt(s, i, STATUS_SUFFIX, if |a| - i == 6 then 7 else |a| - i);
      } else {
        NotAt(s, i, STATUS_SUFFIX, 10);
      }
    }
  }

  lemma ContainsJoined(a: string, b: string, c: string, d: string, t: string)
    requires '/' !in t && t != ""
    ensures Contains(Join([a, b, c, d], '/'), t) <==>
              Contains(a, t) || Contains(b, t) || Contains(c, t) || Contains(d, t)
  {
    JoinFour(a, b, c, d);
    ContainsAround(c, '/', d, t);
    ContainsAround(b, '/', c + ['/'] + d, t);
    ContainsAround(a, '/', b + ['/'] + (c + ['/'] + d), t);
  }

  lemma JoinFour(a: string, b: string, c: string, d: string)
    ensures Join([a, b, c, d], '/') == a + ['/'] + (b + ['/'] + (c + ['/'] + d))
  {
    assert Join([c, d], '/') == c + ['/'] + d by {
      assert [c, d][1..] == [d];
    }
    assert Join([b, c, d], '/') == b + ['/'] + (c + ['/'] + d) by {
      assert [b, c, d][1..] == [c, d];
    }
    assert [a, b, c, d][1..] == [b, c, d];
  }

  lemma EntryParts(x: string, j: string, c: string, last: string)
    requires Plain(x) && Plain(j) && '-' !in j && Plain(c) && '/' !in last
    ensures var key := Join([JOBS_PREFIX, JobKey(x, j), c, last], '/');
            && Split(key, '/') == [JOBS_PREFIX, JobKey(x, j), c, last]
            && (IsInit(key) <==> Contains(last, INIT_SUFFIX)) && (IsDone(key) <==> Contains(last, STATUS_SUFFIX))
            && CallOf(Split(key, '/')) == [x, j, c]
  {
    SplitJoin([JOBS_PREFIX, JobKey(x, j), c, last], '/');
    LiteralSuffixes();
    ContainsJoined(JOBS_PREFIX, JobKey(x, j), c, last, INIT_SUFFIX);
    ContainsJoined(JOBS_PREFIX, JobKey(x, j), c, last, STATUS_SUFFIX);
    ContainsAround(x, '-', j, INIT_SUFFIX);
    ContainsAround(x, '-', j, STATUS_SUFFIX);
    RsplitAtLast(x, '-', j);
  }

  /** One key reads back as what was written, and as nothing else. */
  lemma ReadsBack(e: Entry)
    requires WellFormed(e)
    ensures Readable(KeyOf(e))
    ensures IsInit(KeyOf(e)) <==> e.Init?
    ensures IsDone(KeyOf(e)) <==> e.Status?
    ensures e.Init? ==> Running(KeyOf(e)) == ([e.executor, e.job, e.call], e.activation)
    ensures e.Status? ==> Done(KeyOf(e)) == [e.executor, e.job, e.call]
  {
    LiteralSuffixes();
    match e
    case Init(x, j, c, a) =>
      InitLast(a);
      EntryParts(x, j, c, a + INIT_SUFFIX);
      InitSuffixRemoved(a);
    case Status(x, j, c) =>
      EntryParts(x, j, c, STATUS_SUFFIX);
    case Other(_) =>
  }

  function RunningOf(e: Entry): (CallId, string)
    requires e.Init?
  {
    ([e.executor, e.job, e.call], e.activation)
  }

  function DoneOf(e: Entry): CallId
    requires e.Status?
  {
    [e.executor, e.job, e.call]
  }

  /** get_job_status returns exactly the calls and activations whose entries are listed. */
  lemma StatusExact(entries: set<Entry>, executor: string)
    requires forall e :: e in entries ==> WellFormed(e)
    ensures GetJobStatus(ListKeys(entries, executor)) ==
              JobStatus(set e | e in entries && e.Init? && Listed(executor, e) :: RunningOf(e),
                        set e | e in entries && e.Status? && Listed(executor, e) :: DoneOf(e))
  {
    forall e | e in entries
      ensures Readable(KeyOf(e))
      ensures IsInit(KeyOf(e)) <==> e.Init?
      ensures IsDone(KeyOf(e)) <==> e.Status?
      ensures e.Init? ==> Running(KeyOf(e)) == RunningOf(e)
      ensures e.Status? ==> Done(KeyOf(e)) == DoneOf(e)
    {
      ReadsBack(e);
    }
    var keys := ListKeys(entries, executor);
    var running := set k | k in keys && IsInit(k) :: Running(k);
    var done := set k | k in keys && IsDone(k) :: Done(k);
    forall e | e in entries && e.Init? && Listed(executor, e)
      ensures RunningOf(e) in running
    {
      assert KeyOf(e) in keys;
    }
    forall e | e in entries && e.Status? && Listed(executor, e)
      ensures DoneOf(e) in done
    {
      assert KeyOf(e) in keys;
    }
  }

  /** A key with a suffix text in it that has too few parts. */
  predicate Unreadable(key: string) {
    || (Contains(key, INIT_SUFFIX) && Separators(key, '/') < 3)
    || (Contains(key, STATUS_SUFFIX) && Separators(key, '/') < 2)
  }

  /** Reading fails on one such key, and on nothing else. */
  lemma IndexErrorIff(keys: set<string>)
    ensures GetJobStatus(keys).IndexError? <==> exists k :: k in keys && Unreadable(k)
  {
    forall k | k in keys
      ensures Readable(k) <==> !Unreadable(k)
    {
      SplitCount(k, '/');
    }
  }

  /** Entries of different calls or activations have different keys. */
  lemma KeysDistinct(e: Entry, e': Entry)
    requires WellFormed(e) && WellFormed(e') && KeyOf(e) == KeyOf(e')
    ensures e == e'
  {
    ReadsBack(e);
    ReadsBack(e');
    if e.Init? {
      assert [e.executor, e.job, e.call] == [e'.executor, e'.job, e'.call];
      assert forall i :: 0 <= i < 3 ==> [e.executor, e.job, e.call][i] == [e'.executor, e'.job, e'.call][i];
    } else if e.Status? {
      assert forall i :: 0 <= i < 3 ==> [e.executor, e.job, e.call][i] == [e'.executor, e'.job, e'.call][i];
    }
  }

  // ----- Which executors are listed

  /** Which entries an executor lists: those whose job key starts with its id. */
  lemma ListedIff(executor: string, e: Entry)
    requires WellFormed(e) && !e.Other? && '/' !in executor
    ensures Listed(executor, e) <==> executor <= JobKey(e.executor, e.job)
  {
    var last := if e.Init? then e.activation + INIT_SUFFIX else STATUS_SUFFIX;
    var job := JobKey(e.executor, e.job);
    var rest := e.call + ['/'] + last;
    JoinFour(JOBS_PREFIX, job, e.call, last);
    assert [JOBS_PREFIX, executor][1..] == [executor];
    var front := JOBS_PREFIX + ['/'];
    assert KeyOf(e) == front + (job + ['/'] + rest) && Join([JOBS_PREFIX, executor], '/') == front + executor;
    assert Listed(executor, e) <==> executor <= job + ['/'] + rest by {
      PrefixBehind(front, executor, job + ['/'] + rest);
    }
    PrefixBefore(executor, job, rest);
  }

  lemma PrefixBehind(front: string, a: string, b: string)
    ensures front + a <= front + b <==> a <= b
  {
    if front + a <= front + b {
      assert forall i :: 0 <= i < |a| ==> a[i] == (front + a)[|front| + i] == (front + b)[|front| + i] == b[i];
    }
  }

  lemma PrefixBefore(a: string, job: string, rest: string)
    requires '/' !in a
    ensures a <= job + ['/'] + rest <==> a <= job
  {
    var s := job + ['/'] + rest;
    if |a| <= |job| {
      assert forall i :: 0 <= i < |a| ==> s[i] == job[i];
    } else {
      assert s[|job|] != a[|job|];
    }
  }

  lemma OwnEntriesListed(e: Entry)
    requires WellFormed(e) && !e.Other?
    ensures Listed(e.executor, e)
  {
    ListedIff(e.executor, e);
  }

  /** The status of the calls that the executor itself made. */
  function OwnStatus(entries: set<Entry>, executor: string): JobStatus {
    JobStatus(set e | e in entries && e.Init? && e.executor == executor :: RunningOf(e),
              set e | e in entries && e.Status? && e.executor == executor :: DoneOf(e))
  }

  lemma ForeignListed(entries: set<Entry>, executor: string, e: Entry)
    requires forall e :: e in entries ==> WellFormed(e)
    requires e in entries && !e.Other? && e.executor != executor && Listed(executor, e)
    ensures GetJobStatus(ListKeys(entries, executor)) != OwnStatus(entries, executor)
  {
    StatusExact(entries, executor);
    var status, own := GetJobStatus(ListKeys(entries, executor)), OwnStatus(entries, executor);
    assert [e.executor, e.job, e.call][0] == e.executor;
    if e.Init? {
      assert RunningOf(e) in status.running;
      assert RunningOf(e) !in own.running by {
        forall o | o in entries && o.Init? && o.executor == executor
          ensures RunningOf(o) != RunningOf(e)
        {
          assert RunningOf(o).0[0] != RunningOf(e).0[0];
        }
      }
    } else {
      assert DoneOf(e) in status.done;
      assert DoneOf(e) !in own.done by {
        forall o | o in entries && o.Status? && o.executor == executor
          ensures DoneOf(o) != DoneOf(e)
        {
          assert DoneOf(o)[0] != DoneOf(e)[0];
        }
      }
    }
  }

  /** get_job_status is exact for an executor, for any entries: it returns the executor's own
      calls and activations exactly if no other executor's job key starts with its id. */
  lemma OwnStatusIff(entries: set<Entry>, executor: string)
    requires '/' !in executor && forall e :: e in entries ==> WellFormed(e)
    ensures GetJobStatus(ListKeys(entries, executor)) == OwnStatus(entries, executor) <==>
            forall e :: e in entries && !e.Other? && e.executor != executor ==> !(executor <= JobKey(e.executor, e.job))
  {
    StatusExact(entries, executor);
    forall e | e in entries && !e.Other?
      ensures Listed(executor, e) <==> executor <= JobKey(e.executor, e.job)
    {
      ListedIff(executor, e);
    }
    if e :| e in entries && !e.Other? && e.executor != executor && executor <= JobKey(e.executor, e.job) {
      ForeignListed(entries, executor, e);
    }
  }

  /** With ids numbered within a session it is not: "s-1" lists what "s-10" wrote. */
  lemma TenthListedByFirst(e: Entry)
    requires WellFormed(e) && e.Status? && e.executor == "s-10"
    ensures Listed("s-1", e)
  {
    ListedIff("s-1", e);
    assert "s-1" <= "s-10" + ['-'] + e.job;
  }
}

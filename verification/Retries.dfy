/** Waiting with retries (lithops/retries.py, RetryingFuture and RetryingFunctionExecutor.wait)
    for all futures, without raising. */
module Retries {

  type Response = nat

  /** The executor underneath: submissions are numbered, and whether a response ends in an
      error is not known beforehand. */
  class FunctionExecutor<Input> {
    const errored: Response -> bool
    var submitted: seq<Input>

    constructor (errored: Response -> bool)
      ensures this.errored == errored && submitted == []
    {
      this.errored := errored;
      submitted := [];
    }

    method Map(input: Input) returns (response: Response)
      modifies this
      ensures response == |old(submitted)| && submitted == old(submitted) + [input]
    {
      response := |submitted|;
      submitted := submitted + [input];
    }

    /** Returns when all of the given responses are there; given none it takes all it has. */
    method Wait(responses: seq<Response>) returns (done: seq<Response>, pending: seq<Response>)
      ensures responses != [] ==> done == responses
      ensures responses == [] ==> |done| == |submitted| && forall r :: 0 <= r < |done| ==> done[r] == r
      ensures pending == []
    {
      done, pending := if responses != [] then responses else seq(|submitted|, i requires 0 <= i => i), [];
    }
  }

  class RetryingFuture<Input> {
    const input: Input
    const retries: nat
    var responseFuture: Response
    var failureCount: nat
    var cancelled: bool

    constructor (responseFuture: Response, input: Input, retries: nat)
      ensures this.responseFuture == responseFuture && this.input == input && this.retries == retries
      ensures failureCount == 0 && !cancelled
    {
      this.responseFuture, this.input, this.retries := responseFuture, input, retries;
      failureCount, cancelled := 0, false;
    }

    method Cancel()
      modifies this`cancelled
      ensures cancelled
    {
      cancelled := true;
    }

    predicate ShouldRetry()
      reads this
    {
      !cancelled && failureCount <= retries
    }
  }

  /** How often a future may still be submitted again. */
  function Budget(retries: nat, failures: nat): nat {
    if failures <= retries then retries - failures else 0
  }

  predicate AllFailed(errored: Response -> bool, tried: seq<Response>) {
    forall k :: 0 <= k < |tried| ==> errored(tried[k])
  }

  /** The response and the failure count a future has to begin with. */
  datatype Begin = Begin(response: Response, failures: nat)

  /** `tried` are the responses of a future so far, the last one current. */
  predicate History<Input>(f: RetryingFuture<Input>, errored: Response -> bool, tried: seq<Response>, begin: Begin)
    reads f
  {
    && tried != [] && tried[0] == begin.response && tried[|tried| - 1] == f.responseFuture
    && AllFailed(errored, tried[..|tried| - 1])
    && |tried| - 1 <= Budget(f.retries, begin.failures)
    && (f.cancelled ==> |tried| == 1)
    && (!f.cancelled && f.failureCount <= f.retries ==> f.failureCount == begin.failures + |tried| - 1)
    && (!f.cancelled && f.failureCount > f.retries ==> |tried| - 1 == Budget(f.retries, begin.failures))
  }

  /** Nothing more to be done: a result, cancelled, or out of retries. */
  predicate Finished<Input>(f: RetryingFuture<Input>, errored: Response -> bool)
    reads f
  {
    !errored(f.responseFuture) || f.cancelled || f.failureCount > f.retries
  }

  function Total(tried: seq<seq<Response>>): nat {
    if tried == [] then 0 else Total(tried[..|tried| - 1]) + |tried[|tried| - 1]|
  }

  function Allowed<Input>(fs: seq<RetryingFuture<Input>>): nat {
    if fs == [] then 0 else Allowed(fs[..|fs| - 1]) + fs[|fs| - 1].retries + 1
  }

  lemma {:induction false} TotalUpdate(tried: seq<seq<Response>>, i: nat, r: Response)
    requires i < |tried|
    ensures Total(tried[i := tried[i] + [r]]) == Total(tried) + 1
  {
    var n := |tried| - 1;
    var updated := tried[i := tried[i] + [r]];
    if i == n {
      assert updated[..n] == tried[..n];
    } else {
      TotalUpdate(tried[..n], i, r);
      assert updated[..n] == tried[..n][i := tried[i] + [r]];
    }
  }

  lemma {:induction false} TotalAllowed<Input>(fs: seq<RetryingFuture<Input>>, tried: seq<seq<Response>>)
    requires |fs| == |tried|
    requires forall i :: 0 <= i < |fs| ==> |tried[i]| <= fs[i].retries + 1
    ensures Total(tried) <= Allowed(fs)
  {
    if fs != [] {
      TotalAllowed(fs[..|fs| - 1], tried[..|fs| - 1]);
    }
  }

  lemma {:induction false} TotalOnes(tried: seq<seq<Response>>)
    requires forall i :: 0 <= i < |tried| ==> |tried[i]| == 1
    ensures Total(tried) == |tried|
  {
    if tried != [] {
      TotalOnes(tried[..|tried| - 1]);
    }
  }

  predicate Distinct<T(==)>(s: seq<T>) {
    forall i, j :: 0 <= i < j < |s| ==> s[i] != s[j]
  }

  /** Resubmissions are of the future's own input. */
  ghost predicate SameInput<Input>(submitted: seq<Input>, tried: seq<Response>, input: Input) {
    forall k :: 1 <= k < |tried| ==> tried[k] < |submitted| && submitted[tried[k]] == input
  }

  /** What the loop keeps for one future; `lookup` finds the future of a response. */
  ghost predicate TrackedOne<Input>(f: RetryingFuture<Input>, errored: Response -> bool,
                                    lookup: map<Response, RetryingFuture<Input>>, submitted: seq<Input>,
                                    tried: seq<Response>, begin: Begin)
    reads f
  {
    && History(f, errored, tried, begin)
    && SameInput(submitted, tried, f.input)
    && f.responseFuture in lookup && lookup[f.responseFuture] == f
  }

  ghost predicate Tracked<Input>(fs: seq<RetryingFuture<Input>>, errored: Response -> bool,
                                 lookup: map<Response, RetryingFuture<Input>>, submitted: seq<Input>,
                                 tried: seq<seq<Response>>, begins: seq<Begin>)
    reads fs
  {
    && |tried| == |begins| == |fs|
    && KeysKnown(lookup, |submitted|)
    && forall i :: 0 <= i < |fs| ==> TrackedOne(fs[i], errored, lookup, submitted, tried[i], begins[i])
  }

  predicate KeysKnown<Input>(lookup: map<Response, RetryingFuture<Input>>, submissions: nat) {
    forall r :: r in lookup ==> r < submissions
  }

  predicate Extends<Input>(lookup: map<Response, RetryingFuture<Input>>,
                           lookup': map<Response, RetryingFuture<Input>>) {
    forall r :: r in lookup ==> r in lookup' && lookup'[r] == lookup[r]
  }

  lemma TrackedStays<Input>(f: RetryingFuture<Input>, errored: Response -> bool,
                            lookup: map<Response, RetryingFuture<Input>>, submitted: seq<Input>,
                            lookup': map<Response, RetryingFuture<Input>>, submitted': seq<Input>,
                            tried: seq<Response>, begin: Begin)
    requires TrackedOne(f, errored, lookup, submitted, tried, begin)
    requires Extends(lookup, lookup') && submitted <= submitted'
    ensures TrackedOne(f, errored, lookup', submitted', tried, begin)
  {
  }

  /** The first n are finished. */
  ghost predicate FinishedTo<Input>(fs: seq<RetryingFuture<Input>>, n: nat, errored: Response -> bool)
    reads fs
  {
    forall i :: 0 <= i < n && i < |fs| ==> Finished(fs[i], errored)
  }

  /** Those from n on have not been handled since their responses were collected. */
  ghost predicate UntouchedFrom<Input>(fs: seq<RetryingFuture<Input>>, n: nat, responses: seq<Response>)
    reads fs
  {
    |responses| == |fs| && forall i :: n <= i < |fs| ==> fs[i].responseFuture == responses[i]
  }

  function Responses<Input>(fs: seq<RetryingFuture<Input>>): seq<Response>
    reads fs
  {
    seq(|fs|, i requires 0 <= i < |fs| reads fs => fs[i].responseFuture)
  }

  function LookedUp<Input>(responses: seq<Response>, lookup: map<Response, RetryingFuture<Input>>)
    : seq<RetryingFuture<Input>>
    requires forall i :: 0 <= i < |responses| ==> responses[i] in lookup
  {
    seq(|responses|, i requires 0 <= i < |responses| => lookup[responses[i]])
  }

  function Firsts<Input>(fs: seq<RetryingFuture<Input>>): seq<seq<Response>>
    reads fs
  {
    seq(|fs|, i requires 0 <= i < |fs| reads fs => [fs[i].responseFuture])
  }

  function Begins<Input>(fs: seq<RetryingFuture<Input>>): seq<Begin>
    reads fs
  {
    seq(|fs|, i requires 0 <= i < |fs| reads fs => Begin(fs[i].responseFuture, fs[i].failureCount))
  }

  /** What wait comes to: its two lists, or the error of looking up an unknown response. */
  datatype Outcome<Input> =
    | Waited(done: seq<RetryingFuture<Input>>, pending: seq<RetryingFuture<Input>>)
    | KeyError

  class RetryingFunctionExecutor<Input> {
    const executor: FunctionExecutor<Input>

    constructor (executor: FunctionExecutor<Input>)
      ensures this.executor == executor
    {
      this.executor := executor;
    }

    /** Handles one response that is there. */
    method Handle(f: RetryingFuture<Input>, ghost tried: seq<Response>, ghost begin: Begin)
      returns (retried: bool, ghost tried': seq<Response>)
      requires History(f, executor.errored, tried, begin)
      modifies f`responseFuture, f`failureCount, executor
      ensures History(f, executor.errored, tried', begin)
      ensures if retried
              then executor.submitted == old(executor.submitted) + [f.input]
                   && tried' == tried + [|old(executor.submitted)|]
              else executor.submitted == old(executor.submitted) && tried' == tried && Finished(f, executor.errored)
    {
      retried, tried' := false, tried;
      if executor.errored(f.responseFuture) {
        f.failureCount := f.failureCount + 1;
        if f.ShouldRetry() {
          f.responseFuture := executor.Map(f.input);
          retried, tried' := true, tried + [f.responseFuture];
          assert tried'[..|tried|] == tried[..|tried| - 1] + [tried[|tried| - 1]];
        }
      }
    }

    /** The same with the bookkeeping of `lookup`. */
    method HandleTracked(f: RetryingFuture<Input>, lookup: map<Response, RetryingFuture<Input>>,
                         ghost tried: seq<Response>, ghost begin: Begin)
      returns (retried: bool, lookup': map<Response, RetryingFuture<Input>>, ghost tried': seq<Response>)
      requires TrackedOne(f, executor.errored, lookup, executor.submitted, tried, begin)
      requires KeysKnown(lookup, |executor.submitted|)
      modifies f`responseFuture, f`failureCount, executor
      ensures TrackedOne(f, executor.errored, lookup', executor.submitted, tried', begin)
      ensures KeysKnown(lookup', |executor.submitted|)
      ensures Extends(lookup, lookup') && old(executor.submitted) <= executor.submitted
      ensures if retried
              then tried' == tried + [|old(executor.submitted)|]
                   && |executor.submitted| == |old(executor.submitted)| + 1
              else tried' == tried && executor.submitted == old(executor.submitted) && Finished(f, executor.errored)
    {
      retried, tried' := Handle(f, tried, begin);
      lookup' := lookup;
      if retried {
        lookup' := lookup'[f.responseFuture := f];
      }
    }

    /** One response of a round; those from j on are still to be handled. */
    method HandleNext(f: RetryingFuture<Input>, lookup: map<Response, RetryingFuture<Input>>,
                      ghost fs: seq<RetryingFuture<Input>>, ghost j: nat, ghost responses: seq<Response>,
                      ghost tried: seq<seq<Response>>, ghost begins: seq<Begin>)
      returns (retried: bool, lookup': map<Response, RetryingFuture<Input>>, ghost tried': seq<seq<Response>>)
      requires j < |fs| && fs[j] == f && Distinct(fs)
      requires Tracked(fs, executor.errored, lookup, executor.submitted, tried, begins)
      requires UntouchedFrom(fs, j, responses)
      modifies f`responseFuture, f`failureCount, executor
      ensures Tracked(fs, executor.errored, lookup', executor.submitted, tried', begins)
      ensures UntouchedFrom(fs, j + 1, responses)
      ensures |executor.submitted| - |old(executor.submitted)| == Total(tried') - Total(tried)
      ensures Total(tried') == if retried then Total(tried) + 1 else Total(tried)
      ensures !retried && old(FinishedTo(fs, j, executor.errored)) ==> FinishedTo(fs, j + 1, executor.errored)
    {
      ghost var submitted, one := executor.submitted, [];
      TotalUpdate(tried, j, |submitted|);
      retried, lookup', one := HandleTracked(f, lookup, tried[j], begins[j]);
      tried' := tried[j := one];
      assert !retried ==> tried' == tried;
      forall i | 0 <= i < |fs|
        ensures TrackedOne(fs[i], executor.errored, lookup', executor.submitted, tried'[i], begins[i])
      {
        if i != j {
          assert TrackedOne(fs[i], executor.errored, lookup, submitted, tried[i], begins[i]);
          TrackedStays(fs[i], executor.errored, lookup, submitted, lookup', executor.submitted, tried[i], begins[i]);
        }
      }
      if !retried && old(FinishedTo(fs, j, executor.errored)) {
        forall i | 0 <= i < j
          ensures Finished(fs[i], executor.errored)
        {
          assert old(Finished(fs[i], executor.errored));
        }
      }
    }

    /** A round with j responses handled; `total0` and `base` say how many responses there were
        before it and how many submissions came from elsewhere. */
    ghost predicate Midway(fs: seq<RetryingFuture<Input>>, j: nat, responses: seq<Response>,
                           lookup: map<Response, RetryingFuture<Input>>, tried: seq<seq<Response>>, begins: seq<Begin>,
                           done: seq<RetryingFuture<Input>>, pending: seq<RetryingFuture<Input>>,
                           total0: int, base: int)
      reads fs, executor
    {
      && j <= |fs|
      && Tracked(fs, executor.errored, lookup, executor.submitted, tried, begins)
      && UntouchedFrom(fs, j, responses)
      && |executor.submitted| == base + Total(tried)
      && if pending == [] then done == fs[..j] && FinishedTo(fs, j, executor.errored) && Total(tried) == total0
         else Total(tried) > total0
    }

    lemma RoundStarts(fs: seq<RetryingFuture<Input>>, responses: seq<Response>,
                      lookup: map<Response, RetryingFuture<Input>>, tried: seq<seq<Response>>, begins: seq<Begin>)
      requires responses == Responses(fs)
      requires Tracked(fs, executor.errored, lookup, executor.submitted, tried, begins)
      ensures Midway(fs, 0, responses, lookup, tried, begins, [], [], Total(tried), |executor.submitted| - Total(tried))
    {
    }

    lemma RoundEnds(fs: seq<RetryingFuture<Input>>, responses: seq<Response>,
                    lookup: map<Response, RetryingFuture<Input>>, tried: seq<seq<Response>>, begins: seq<Begin>,
                    done: seq<RetryingFuture<Input>>, pending: seq<RetryingFuture<Input>>, total0: int, base: int)
      requires |responses| == |fs|
      requires Midway(fs, |fs|, responses, lookup, tried, begins, done, pending, total0, base)
      ensures Tracked(fs, executor.errored, lookup, executor.submitted, tried, begins)
      ensures |executor.submitted| == base + Total(tried)
      ensures if pending == [] then done == fs && FinishedTo(fs, |fs|, executor.errored) else Total(tried) > total0
    {
      assert fs[..|fs|] == fs;
    }

    /** Response j is looked up, handled and sorted. */
    method HandleAt(fs: seq<RetryingFuture<Input>>, j: nat, responses: seq<Response>,
                    lookup: map<Response, RetryingFuture<Input>>,
                    done: seq<RetryingFuture<Input>>, pending: seq<RetryingFuture<Input>>,
                    ghost tried: seq<seq<Response>>, ghost begins: seq<Begin>, ghost total0: int, ghost base: int)
      returns (done': seq<RetryingFuture<Input>>, pending': seq<RetryingFuture<Input>>,
               lookup': map<Response, RetryingFuture<Input>>, ghost tried': seq<seq<Response>>)
      requires j < |fs| && Distinct(fs)
      requires Midway(fs, j, responses, lookup, tried, begins, done, pending, total0, base)
      modifies fs`responseFuture, fs`failureCount, executor
      ensures Midway(fs, j + 1, responses, lookup', tried', begins, done', pending', total0, base)
    {
      assert TrackedOne(fs[j], executor.errored, lookup, executor.submitted, tried[j], begins[j]);
      var f := lookup[responses[j]];
      assert f == fs[j];
      var retried;
      retried, lookup', tried' := HandleNext(f, lookup, fs, j, responses, tried, begins);
      done', pending' := done, pending;
      if retried {
        pending' := pending + [f];
      } else {
        done' := done + [f];
        assert fs[..j + 1] == fs[..j] + [f];
      }
    }

    /** The responses that are there, one after the other. */
    method HandleAll(fs: seq<RetryingFuture<Input>>, responses: seq<Response>,
                     lookup: map<Response, RetryingFuture<Input>>,
                     ghost tried: seq<seq<Response>>, ghost begins: seq<Begin>)
      returns (done: seq<RetryingFuture<Input>>, pending: seq<RetryingFuture<Input>>,
               lookup': map<Response, RetryingFuture<Input>>, ghost tried': seq<seq<Response>>)
      requires Distinct(fs) && responses == Responses(fs)
      requires Tracked(fs, executor.errored, lookup, executor.submitted, tried, begins)
      modifies fs`responseFuture, fs`failureCount, executor
      ensures Tracked(fs, executor.errored, lookup', executor.submitted, tried', begins)
      ensures |executor.submitted| - |old(executor.submitted)| == Total(tried') - Total(tried)
      ensures if pending == [] then done == fs && FinishedTo(fs, |fs|, executor.errored)
              else Total(tried') > Total(tried)
    {
      ghost var total0, base := Total(tried), |executor.submitted| - Total(tried);
      RoundStarts(fs, responses, lookup, tried, begins);
      done, pending, lookup', tried' := [], [], lookup, tried;
      for j := 0 to |responses|
        invariant Midway(fs, j, responses, lookup', tried', begins, done, pending, total0, base)
      {
        done, pending, lookup', tried' :=
          HandleAt(fs, j, responses, lookup', done, pending, tried', begins, total0, base);
      }
      RoundEnds(fs, responses, lookup', tried', begins, done, pending, total0, base);
    }

    /** `{f.response_future: f for f in fs}`; each future starts with the response it has. */
    method Start(fs: seq<RetryingFuture<Input>>) returns (lookup: map<Response, RetryingFuture<Input>>)
      requires Distinct(Responses(fs))
      requires forall i :: 0 <= i < |fs| ==> fs[i].responseFuture < |executor.submitted|
      ensures Tracked(fs, executor.errored, lookup, executor.submitted, Firsts(fs), Begins(fs))
      ensures fs == [] ==> lookup == map[]
    {
      lookup := map[];
      for j := 0 to |fs|
        invariant j == 0 ==> lookup == map[]
        invariant KeysKnown(lookup, |executor.submitted|)
        invariant forall i :: 0 <= i < j ==> fs[i].responseFuture in lookup && lookup[fs[i].responseFuture] == fs[i]
      {
        forall i | 0 <= i < j
          ensures fs[i].responseFuture != fs[j].responseFuture
        {
          assert Responses(fs)[i] != Responses(fs)[j];
        }
        lookup := lookup[fs[j].responseFuture := fs[j]];
      }
    }

    /** The executor's wait, and whether all the responses it returns can be looked up; the first
        one that cannot ends the wait. */
    method Collect(fs: seq<RetryingFuture<Input>>, lookup: map<Response, RetryingFuture<Input>>,
                   ghost tried: seq<seq<Response>>, ghost begins: seq<Begin>)
      returns (known: bool, done: seq<Response>, stillPending: seq<RetryingFuture<Input>>)
      requires Tracked(fs, executor.errored, lookup, executor.submitted, tried, begins)
      requires fs == [] ==> lookup == map[]
      ensures known <==> fs != [] || executor.submitted == []
      ensures known ==> done == Responses(fs) && stillPending == []
    {
      var responses := Responses(fs);
      var pending;
      done, pending := executor.Wait(responses);
      stillPending := LookedUp(pending, lookup);
      known := forall r :: r in done ==> r in lookup;
      KnownResponses(fs, executor.errored, lookup, executor.submitted, tried, begins);
      if fs == [] && done != [] {
        assert done[0] !in lookup;
      }
    }

    /** One round of the wait. */
    method Round(fs: seq<RetryingFuture<Input>>, lookup: map<Response, RetryingFuture<Input>>,
                 ghost tried: seq<seq<Response>>, ghost begins: seq<Begin>)
      returns (outcome: Outcome<Input>, lookup': map<Response, RetryingFuture<Input>>,
               ghost tried': seq<seq<Response>>)
      requires Distinct(fs) && (fs == [] ==> lookup == map[])
      requires Tracked(fs, executor.errored, lookup, executor.submitted, tried, begins)
      modifies fs`responseFuture, fs`failureCount, executor
      ensures Tracked(fs, executor.errored, lookup', executor.submitted, tried', begins)
      ensures |executor.submitted| - |old(executor.submitted)| == Total(tried') - Total(tried)
      ensures outcome.KeyError? <==> fs == [] && old(executor.submitted) != []
      ensures outcome.Waited? && outcome.pending == [] ==>
                outcome.done == fs && FinishedTo(fs, |fs|, executor.errored)
      ensures outcome.Waited? && outcome.pending != [] ==>
                fs != [] && Total(tried) < Total(tried') <= Allowed(fs)
    {
      var known, responses, stillPending := Collect(fs, lookup, tried, begins);
      if !known {
        return KeyError, lookup, tried;
      }
      var done, pending;
      done, pending, lookup', tried' := HandleAll(fs, responses, lookup, tried, begins);
      WithinBudget(fs, executor.errored, lookup', executor.submitted, tried', begins);
      outcome := Waited(done, stillPending + pending);
    }

    /** The wait for all futures returns, with every future done, in order and once. Each was
        submitted again only after an error, with its own input, and at most `retries` times;
        one that still ends in an error was cancelled or has used up its retries. Waiting for
        no futures means waiting for all that were ever submitted, and fails if there are any. */
    method Wait(fs: seq<RetryingFuture<Input>>)
      returns (outcome: Outcome<Input>, ghost tried: seq<seq<Response>>)
      requires Distinct(fs) && Distinct(Responses(fs))
      requires forall i :: 0 <= i < |fs| ==> fs[i].responseFuture < |executor.submitted|
      modifies fs`responseFuture, fs`failureCount, executor
      ensures outcome == if fs == [] && old(executor.submitted) != [] then KeyError else Waited(fs, [])
      ensures |tried| == |fs|
      ensures forall i :: 0 <= i < |fs| ==> History(fs[i], executor.errored, tried[i], old(Begins(fs))[i])
      ensures forall i :: 0 <= i < |fs| ==> SameInput(executor.submitted, tried[i], fs[i].input)
      ensures FinishedTo(fs, |fs|, executor.errored)
      ensures |executor.submitted| - |old(executor.submitted)| == Total(tried) - |fs|
    {
      var lookup := Start(fs);
      ghost var begins := Begins(fs);
      tried := Firsts(fs);
      TotalOnes(tried);
      while true
        invariant Tracked(fs, executor.errored, lookup, executor.submitted, tried, begins)
        invariant |executor.submitted| - |old(executor.submitted)| == Total(tried) - |fs|
        invariant fs == [] ==> lookup == map[] && executor.submitted == old(executor.submitted)
        decreases Allowed(fs) - Total(tried)
      {
        outcome, lookup, tried := Round(fs, lookup, tried, begins);
        if outcome.KeyError? || outcome.pending == [] {
          break;
        }
      }
      TrackedMeans(fs, executor.errored, lookup, executor.submitted, tried, begins);
    }
  }

  lemma TrackedMeans<Input>(fs: seq<RetryingFuture<Input>>, errored: Response -> bool,
                            lookup: map<Response, RetryingFuture<Input>>, submitted: seq<Input>,
                            tried: seq<seq<Response>>, begins: seq<Begin>)
    requires Tracked(fs, errored, lookup, submitted, tried, begins)
    ensures forall i :: 0 <= i < |fs| ==> History(fs[i], errored, tried[i], begins[i])
    ensures forall i :: 0 <= i < |fs| ==> SameInput(submitted, tried[i], fs[i].input)
  {
    forall i | 0 <= i < |fs|
      ensures History(fs[i], errored, tried[i], begins[i]) && SameInput(submitted, tried[i], fs[i].input)
    {
      assert TrackedOne(fs[i], errored, lookup, submitted, tried[i], begins[i]);
    }
  }

  /** The responses of the futures themselves are always known. */
  lemma KnownResponses<Input>(fs: seq<RetryingFuture<Input>>, errored: Response -> bool,
                              lookup: map<Response, RetryingFuture<Input>>, submitted: seq<Input>,
                              tried: seq<seq<Response>>, begins: seq<Begin>)
    requires Tracked(fs, errored, lookup, submitted, tried, begins)
    ensures forall r :: r in Responses(fs) ==> r in lookup
  {
    forall i | 0 <= i < |fs|
      ensures Responses(fs)[i] in lookup
    {
      assert TrackedOne(fs[i], errored, lookup, submitted, tried[i], begins[i]);
    }
  }

  lemma WithinBudget<Input>(fs: seq<RetryingFuture<Input>>, errored: Response -> bool,
                            lookup: map<Response, RetryingFuture<Input>>, submitted: seq<Input>,
                            tried: seq<seq<Response>>, begins: seq<Begin>)
    requires Tracked(fs, errored, lookup, submitted, tried, begins)
    ensures Total(tried) <= Allowed(fs)
  {
    forall i | 0 <= i < |fs|
      ensures |tried[i]| <= fs[i].retries + 1
    {
      assert TrackedOne(fs[i], errored, lookup, submitted, tried[i], begins[i]);
    }
    TotalAllowed(fs, tried);
  }

  /** What that means for a future that was fresh: it ends in an error exactly if all its
      responses do, and then it was cancelled or submitted again exactly `retries` times. */
  lemma EndsInError<Input>(f: RetryingFuture<Input>, errored: Response -> bool, tried: seq<Response>, begin: Begin)
    requires History(f, errored, tried, begin) && begin.failures == 0 && Finished(f, errored)
    ensures |tried| <= f.retries + 1
    ensures errored(f.responseFuture) <==> AllFailed(errored, tried)
    ensures errored(f.responseFuture) && !f.cancelled ==>
              |tried| == f.retries + 1 && f.failureCount > f.retries
  {
    var n := |tried| - 1;
    if errored(f.responseFuture) {
      assert forall k :: 0 <= k < n ==> tried[k] == tried[..n][k];
    }
  }
}

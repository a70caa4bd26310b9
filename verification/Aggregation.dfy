/**
 One response out of many subjobs (_gather_in_batches, _check_all_subjob_states, _fetch_all_subjob_results and
 _build_aggregated_response in api/v2/ingest.py).
 */
module Aggregation {
  import opened Sequences
  import opened JobStates
  import opened PdfSplit
  import opened ChunkRecords
  import opened DocumentExtraction
  import opened ShippedRecords
  import TraceTimes
  import TraceAggregation

  /** How an awaited call ends. */
  datatype Outcome<+T> = Value(value: T) | Timeout | Raised(error: string)

  datatype Descriptor = Descriptor(jobId: string, chunkIndex: nat, startPage: Field, endPage: Field, pageCount: Field)

  datatype Data = NoData | Data(records: Option<seq<Record>>)

  /** A fetched result; a trace or annotations that are missing or no dictionaries count as empty ones. */
  datatype Result = Result(data: Data, trace: TraceTimes.Trace, annotations: map<string, string>)

  datatype Failure = Failure(jobId: string, chunkIndex: nat, error: Option<string>)

  /** A subjob and what the backend answers about it. */
  datatype Subjob = Subjob(descriptor: Descriptor, state: Outcome<Option<State>>, fetch: Outcome<Option<Result>>)

  // --- what is to become of each subjob ------------------------------------------------------------------

  datatype Fate = Pending | Lost(error: Option<string>) | Missing | Done(result: Result)

  function StateOf(job: Subjob): Option<State> {
    if job.state.Value? then job.state.value else None
  }

  predicate Running(job: Subjob) {
    StateOf(job).Some? && Intermediate(StateOf(job).value)
  }

  function FateOf(job: Subjob): Fate {
    if StateOf(job) == Some(Failed) then Lost(None)
    else if Running(job) || job.fetch.Timeout? then Pending
    else if job.fetch.Raised? then Lost(Some(job.fetch.error))
    else if job.fetch.value.None? then Missing
    else Done(job.fetch.value.value)
  }

  ghost predicate AllAnswered(jobs: seq<Subjob>) {
    forall i :: 0 <= i < |jobs| ==> jobs[i].state.Value?
  }

  ghost predicate SomeRunning(jobs: seq<Subjob>) {
    exists i :: 0 <= i < |jobs| && Running(jobs[i])
  }

  ghost predicate NonePending(jobs: seq<Subjob>) {
    forall i :: 0 <= i < |jobs| ==> !FateOf(jobs[i]).Pending?
  }

  /** The failures by state, in order; chunks are counted from 1. */
  function StateFailures(jobs: seq<Subjob>): seq<Failure> {
    if jobs == [] then []
    else
      var n := |jobs| - 1;
      StateFailures(jobs[..n])
      + if StateOf(jobs[n]) == Some(Failed) then [Failure(jobs[n].descriptor.jobId, n + 1, None)] else []
  }

  function FetchFailure(job: Subjob, i: nat): seq<Failure> {
    if job.fetch.Raised? then [Failure(job.descriptor.jobId, i + 1, Some(job.fetch.error))] else []
  }

  predicate Fetchable(job: Subjob) {
    StateOf(job) != Some(Failed) && !Running(job)
  }

  /** The failures by fetch, in order. */
  function FetchFailures(jobs: seq<Subjob>): seq<Failure> {
    if jobs == [] then []
    else
      var n := |jobs| - 1;
      FetchFailures(jobs[..n]) + if Fetchable(jobs[n]) then FetchFailure(jobs[n], n) else []
  }

  function ResultOf(job: Subjob): Option<Result> {
    if FateOf(job).Done? then Some(FateOf(job).result) else None
  }

  function Results(jobs: seq<Subjob>): (results: seq<Option<Result>>)
    ensures |results| == |jobs|
  {
    seq(|jobs|, i requires 0 <= i < |jobs| => ResultOf(jobs[i]))
  }

  function Descriptors(jobs: seq<Subjob>): (all: seq<Descriptor>)
    ensures |all| == |jobs|
  {
    seq(|jobs|, i requires 0 <= i < |jobs| => jobs[i].descriptor)
  }

  // --- gathering in batches ------------------------------------------------------------------------------

  datatype Gathered<+T> = Gathered(results: seq<Outcome<T>>) | Stopped

  /**
   _gather_in_batches: the outcomes in order, whatever the batch size; without return_exceptions the first batch
   with an exception ends it. Python's range refuses step 0 and is empty for a negative one.
   */
  method GatherInBatches<T>(coroutines: seq<Outcome<T>>, batchSize: int,
                            returnExceptions: bool) returns (r: Gathered<T>, ghost batches: seq<nat>)
    ensures batchSize >= 1 ==>
      r == if returnExceptions || (forall i :: 0 <= i < |coroutines| ==> coroutines[i].Value?) then Gathered(coroutines)
           else Stopped
    ensures batchSize == 0 ==> r.Stopped?
    ensures batchSize < 0 ==> r == Gathered([])
    ensures forall k :: 0 <= k < |batches| ==> 1 <= batches[k] <= batchSize
    ensures forall k :: 0 <= k < |batches| - 1 ==> batches[k] == batchSize
  {
    batches := [];
    if batchSize == 0 { return Stopped, []; }
    var results := [];
    var offset := 0;
    while batchSize > 0 && offset < |coroutines|
      invariant batchSize > 0 ==> 0 <= offset && results == coroutines[..Min(offset, |coroutines|)]
      invariant batchSize < 0 ==> results == []
      invariant forall k :: 0 <= k < |batches| && offset < |coroutines| ==> batches[k] == batchSize
      invariant forall k :: 0 <= k < |batches| - 1 ==> batches[k] == batchSize
      invariant forall k :: 0 <= k < |batches| ==> 1 <= batches[k] <= batchSize
      invariant returnExceptions || forall i :: 0 <= i < |results| ==> results[i].Value?
      decreases |coroutines| - offset
    {
      var batch := coroutines[offset..Min(offset + batchSize, |coroutines|)];
      if !returnExceptions && exists i :: 0 <= i < |batch| && !batch[i].Value? {
        ghost var i :| 0 <= i < |batch| && !batch[i].Value?;
        assert !coroutines[offset + i].Value?;
        return Stopped, batches + [|batch|];
      }
      results := results + batch;
      batches := batches + [|batch|];
      offset := offset + batchSize;
    }
    return Gathered(results), batches;
  }

  // --- checking the states ---------------------------------------------------------------------------------

  datatype Check = Broken | Deferred | Checked(failed: seq<Failure>)

  function StateReplies(jobs: seq<Subjob>): (replies: seq<Outcome<Option<State>>>)
    ensures |replies| == |jobs|
  {
    seq(|jobs|, i requires 0 <= i < |jobs| => jobs[i].state)
  }

  /** _check_all_subjob_states */
  method CheckAllSubjobStates(jobs: seq<Subjob>, maxParallelOps: nat) returns (check: Check, ghost batches: seq<nat>)
    requires maxParallelOps >= 1
    ensures Within(batches, maxParallelOps + 1)
    ensures check == if !AllAnswered(jobs) then Broken else if SomeRunning(jobs) then Deferred
                     else Checked(StateFailures(jobs))
  {
    var replies;
    replies, batches := GatherInBatches(StateReplies(jobs), maxParallelOps, false);
    if replies.Stopped? { return Broken, batches; }
    assert forall i :: 0 <= i < |jobs| ==> StateReplies(jobs)[i] == jobs[i].state;
    var failed := [];
    for n := 0 to |jobs|
      invariant failed == StateFailures(jobs[..n])
      invariant forall i :: 0 <= i < n ==> !Running(jobs[i])
    {
      assert jobs[..n + 1][..n] == jobs[..n];
      var state := replies.results[n].value;
      if state == Some(Failed) {
        failed := failed + [Failure(jobs[n].descriptor.jobId, n + 1, None)];
      } else if state.Some? && Intermediate(state.value) {
        assert Running(jobs[n]);
        return Deferred, batches;
      }
    }
    assert jobs[..|jobs|] == jobs;
    return Checked(failed), batches;
  }

  // --- fetching the results ----------------------------------------------------------------------------------

  function Targets(jobs: seq<Subjob>): seq<nat> {
    if jobs == [] then []
    else
      var n := |jobs| - 1;
      Targets(jobs[..n]) + if Fetchable(jobs[n]) then [n] else []
  }

  lemma {:induction false} TargetsAreFetchable(jobs: seq<Subjob>)
    ensures forall i: nat :: i in Targets(jobs) <==> i < |jobs| && Fetchable(jobs[i])
  {
    hide Fetchable;
    if jobs != [] {
      TargetsAreFetchable(jobs[..|jobs| - 1]);
    }
  }

  ghost predicate Within(targets: seq<nat>, n: nat) {
    forall t :: 0 <= t < |targets| ==> targets[t] < n
  }

  lemma TargetsWithin(jobs: seq<Subjob>)
    ensures Within(Targets(jobs), |jobs|)
  {
    hide Targets;
    TargetsAreFetchable(jobs);
    forall t | 0 <= t < |Targets(jobs)|
      ensures Targets(jobs)[t] < |jobs|
    {
      assert Targets(jobs)[t] in Targets(jobs);
    }
  }

  ghost function TargetFailures(jobs: seq<Subjob>, targets: seq<nat>): seq<Failure>
    requires Within(targets, |jobs|)
  {
    if targets == [] then []
    else
      var last := targets[|targets| - 1];
      TargetFailures(jobs, targets[..|targets| - 1]) + FetchFailure(jobs[last], last)
  }

  lemma {:induction false} TargetFailuresPrefix(jobs: seq<Subjob>, n: nat, targets: seq<nat>)
    requires n <= |jobs| && Within(targets, n)
    ensures TargetFailures(jobs, targets) == TargetFailures(jobs[..n], targets)
  {
    if targets != [] {
      TargetFailuresPrefix(jobs, n, targets[..|targets| - 1]);
    }
  }

  lemma OneMoreTarget(jobs: seq<Subjob>, targets: seq<nat>, i: nat)
    requires targets != [] && Within(targets, |jobs|) && targets[|targets| - 1] == i
    ensures i < |jobs|
    ensures TargetFailures(jobs, targets) == TargetFailures(jobs, targets[..|targets| - 1]) + FetchFailure(jobs[i], i)
  {
  }

  lemma {:induction false} TargetsFail(jobs: seq<Subjob>)
    ensures Within(Targets(jobs), |jobs|) && TargetFailures(jobs, Targets(jobs)) == FetchFailures(jobs)
  {
    hide FetchFailure;
    TargetsWithin(jobs);
    if jobs != [] {
      var n := |jobs| - 1;
      var before := Targets(jobs[..n]);
      TargetsWithin(jobs[..n]);
      TargetsFail(jobs[..n]);
      TargetFailuresPrefix(jobs, n, before);
      if Fetchable(jobs[n]) {
        OneMoreTarget(jobs, before + [n], n);
        assert (before + [n])[..|before|] == before;
      } else {
        assert Targets(jobs) == before;
      }
    }
  }

  lemma ResultOfTarget(job: Subjob)
    ensures !Fetchable(job) ==> ResultOf(job).None?
    ensures Fetchable(job) && job.fetch.Raised? ==> ResultOf(job).None?
    ensures Fetchable(job) && job.fetch.Value? ==> ResultOf(job) == job.fetch.value
  {
  }

  lemma NoTargets(jobs: seq<Subjob>)
    ensures TargetFailures(jobs, []) == []
  {
  }

  lemma AllTargets(jobs: seq<Subjob>, results: seq<Option<Result>>)
    requires StoredUpTo(jobs, Targets(jobs), results)
    ensures results == Results(jobs)
  {
    TargetsAreFetchable(jobs);
    forall i: nat | i < |jobs|
      ensures results[i] == ResultOf(jobs[i])
    {
      ResultOfTarget(jobs[i]);
    }
  }

  datatype Fetched = NotReady | Ready(results: seq<Option<Result>>, failed: seq<Failure>)

  ghost predicate Replied(jobs: seq<Subjob>, targets: seq<nat>, replies: seq<Outcome<Option<Result>>>) {
    && Within(targets, |jobs|) && |replies| == |targets|
    && forall t :: 0 <= t < |targets| ==> replies[t] == jobs[targets[t]].fetch
  }

  /** _fetch_all_subjob_results */
  method FetchAllSubjobResults(jobs: seq<Subjob>, failedSubjobs: seq<Failure>,
                               maxParallelOps: nat) returns (fetched: Fetched, ghost batches: seq<nat>)
    requires maxParallelOps >= 1
    ensures Within(batches, maxParallelOps + 1)
    ensures fetched.NotReady? <==> exists i :: 0 <= i < |jobs| && Fetchable(jobs[i]) && jobs[i].fetch.Timeout?
    ensures fetched.Ready? ==> fetched.results == Results(jobs) && fetched.failed == failedSubjobs + FetchFailures(jobs)
  {
    hide FetchFailures, Targets, Fetchable, ResultOf, TargetFailures, Results;
    var coroutines, targets := CollectTargets(jobs);
    var replies;
    replies, batches := GatherInBatches(coroutines, maxParallelOps, true);
    TargetsFail(jobs);
    TargetsAreFetchable(jobs);
    fetched := StoreReplies(jobs, targets, replies.results, failedSubjobs);
    if fetched.Ready? { AllTargets(jobs, fetched.results); }
  }

  /** The second loop: results go where their subjob stands, failures to the end of the list. */
  method StoreReplies(jobs: seq<Subjob>, targets: seq<nat>, replies: seq<Outcome<Option<Result>>>,
                      failedSubjobs: seq<Failure>)
    returns (fetched: Fetched)
    requires Replied(jobs, targets, replies) && forall i :: i in targets ==> i < |jobs| && Fetchable(jobs[i])
    ensures fetched.NotReady? <==> exists i :: i in targets && jobs[i].fetch.Timeout?
    ensures fetched.Ready? ==> StoredUpTo(jobs, targets, fetched.results)
                               && fetched.failed == failedSubjobs + TargetFailures(jobs, targets)
  {
    hide ResultOf, TargetFailures, FateOf, Fetchable;
    NoTargets(jobs);
    var results: seq<Option<Result>> := seq(|jobs|, i => None);
    var failed := failedSubjobs;
    for t := 0 to |targets|
      invariant StoredUpTo(jobs, targets[..t], results)
      invariant failed == failedSubjobs + TargetFailures(jobs, targets[..t])
      invariant forall s :: 0 <= s < t ==> !jobs[targets[s]].fetch.Timeout?
    {
      assert targets[..t + 1][..t] == targets[..t];
      OneMoreTarget(jobs, targets[..t + 1], targets[t]);
      var i, reply := targets[t], replies[t];
      assert i in targets;
      ResultOfTarget(jobs[i]);
      if reply.Timeout? { return NotReady; }
      StoreOne(jobs, targets[..t], i, results);
      if reply.Raised? {
        failed := failed + [Failure(jobs[i].descriptor.jobId, i + 1, Some(reply.error))];
      } else {
        results := results[i := reply.value];
      }
      assert targets[..t + 1] == targets[..t] + [i];
    }
    assert targets[..|targets|] == targets;
    return Ready(results, failed);
  }

  ghost predicate StoredUpTo(jobs: seq<Subjob>, targets: seq<nat>, results: seq<Option<Result>>) {
    && |results| == |jobs|
    && forall i: nat :: i < |jobs| ==> results[i] == if i in targets then ResultOf(jobs[i]) else None
  }

  lemma StoreOne(jobs: seq<Subjob>, targets: seq<nat>, i: nat, results: seq<Option<Result>>)
    requires i < |jobs| && StoredUpTo(jobs, targets, results)
    ensures StoredUpTo(jobs, targets + [i], results[i := ResultOf(jobs[i])])
    ensures ResultOf(jobs[i]).None? ==> results[i := ResultOf(jobs[i])] == results
  {
    hide ResultOf;
  }

  lemma FetchableIs(job: Subjob)
    ensures Fetchable(job)
            <==> StateOf(job) != Some(Failed) && !(StateOf(job).Some? && Intermediate(StateOf(job).value))
  {
  }

  /** The first loop: what to fetch, and for which subjob. */
  method CollectTargets(jobs: seq<Subjob>) returns (coroutines: seq<Outcome<Option<Result>>>, targets: seq<nat>)
    ensures targets == Targets(jobs) && Replied(jobs, targets, coroutines)
  {
    hide Fetchable;
    coroutines, targets := [], [];
    for n := 0 to |jobs|
      invariant targets == Targets(jobs[..n]) && |coroutines| == |targets| && Within(targets, n)
      invariant forall t :: 0 <= t < |targets| ==> coroutines[t] == jobs[targets[t]].fetch
    {
      assert jobs[..n + 1][..n] == jobs[..n];
      var state := StateOf(jobs[n]);
      FetchableIs(jobs[n]);
      if state == Some(Failed) { continue; }
      if state.Some? && Intermediate(state.value) { continue; }
      coroutines := coroutines + [jobs[n].fetch];
      targets := targets + [n];
    }
    assert jobs[..|jobs|] == jobs;
  }

  // --- building the response -----------------------------------------------------------------------------------

  datatype Response = Response(
    data: seq<Record>, failed: bool, subjobsFailed: nat, failedSubjobs: seq<Failure>, subjobIds: seq<string>,
    chunks: seq<Descriptor>, segments: seq<TraceAggregation.Segment>, annotations: map<string, string>,
    trace: TraceTimes.Trace)

  function NormalizedData(result: Result, descriptor: Descriptor, parent: Parent): seq<Record> {
    if result.data.Data? && result.data.records.Some?
    then NormalizeAll(result.data.records.value, PageOffset(descriptor.startPage), parent)
    else []
  }

  /** What each subjob contributes to the data, in order. */
  function DataParts(results: seq<Option<Result>>, descriptors: seq<Descriptor>,
                     parent: Parent): (parts: seq<seq<Record>>)
    requires |results| == |descriptors|
    ensures |parts| == |results|
  {
    seq(|results|, i requires 0 <= i < |results| =>
      if results[i].Some? then NormalizedData(results[i].value, descriptors[i], parent) else [])
  }

  function DoneChunks(results: seq<Option<Result>>, descriptors: seq<Descriptor>): seq<Descriptor>
    requires |results| == |descriptors|
  {
    if results == [] then []
    else
      var n := |results| - 1;
      DoneChunks(results[..n], descriptors[..n]) + if results[n].Some? then [descriptors[n]] else []
  }

  function Segments(results: seq<Option<Result>>, descriptors: seq<Descriptor>): seq<TraceAggregation.Segment>
    requires |results| == |descriptors|
  {
    if results == [] then []
    else
      var n := |results| - 1;
      Segments(results[..n], descriptors[..n])
      + if results[n].Some? && results[n].value.trace != map[]
        then [TraceAggregation.Segment(descriptors[n].chunkIndex, results[n].value.trace)] else []
  }

  ghost predicate Ascending(descriptors: seq<Descriptor>) {
    forall i, j :: 0 <= i < j < |descriptors| ==> descriptors[i].chunkIndex < descriptors[j].chunkIndex
  }

  /** The i-th subjob has this descriptor and a result. */
  ghost predicate GivesChunk(results: seq<Option<Result>>, descriptors: seq<Descriptor>, i: nat, d: Descriptor) {
    i < |results| && i < |descriptors| && results[i].Some? && descriptors[i] == d
  }

  /** The i-th subjob has this trace to show. */
  ghost predicate GivesTrace(results: seq<Option<Result>>, descriptors: seq<Descriptor>, i: nat,
                             s: TraceAggregation.Segment) {
    && i < |results| && i < |descriptors| && results[i].Some? && results[i].value.trace != map[]
    && s == TraceAggregation.Segment(descriptors[i].chunkIndex, results[i].value.trace)
  }

  /** chunks are the descriptors of the subjobs with a result, in their order. */
  lemma {:induction false} ChunksAreDone(results: seq<Option<Result>>, descriptors: seq<Descriptor>)
    requires |results| == |descriptors| && Ascending(descriptors)
    ensures Ascending(DoneChunks(results, descriptors))
    ensures forall d ::
      d in DoneChunks(results, descriptors) <==> exists i: nat :: GivesChunk(results, descriptors, i, d)
  {
    if results != [] {
      var n := |results| - 1;
      var before, chunks := DoneChunks(results[..n], descriptors[..n]), DoneChunks(results, descriptors);
      ChunksAreDone(results[..n], descriptors[..n]);
      forall i: nat, d
        ensures GivesChunk(results[..n], descriptors[..n], i, d) <==> i < n && GivesChunk(results, descriptors, i, d)
      {
      }
      forall d
        ensures d in chunks <==> exists i: nat :: GivesChunk(results, descriptors, i, d)
      {
        if d in before {
          var i: nat :| GivesChunk(results[..n], descriptors[..n], i, d);
          assert GivesChunk(results, descriptors, i, d);
        }
        if results[n].Some? { assert GivesChunk(results, descriptors, n, descriptors[n]); }
        if i: nat :| GivesChunk(results, descriptors, i, d) && i < n {
          assert GivesChunk(results[..n], descriptors[..n], i, d);
        }
      }
      forall k | 0 <= k < |before|
        ensures before[k].chunkIndex < descriptors[n].chunkIndex
      {
        assert before[k] in before;
        var i: nat :| GivesChunk(results[..n], descriptors[..n], i, before[k]);
      }
    }
  }

  ghost predicate InOrder(segments: seq<TraceAggregation.Segment>) {
    forall k, l :: 0 <= k < l < |segments| ==> segments[k].chunk < segments[l].chunk
  }

  /** trace_segments are the traces of the subjobs that have one, under their chunk indices and in their order. */
  lemma {:induction false} SegmentsAreTraces(results: seq<Option<Result>>, descriptors: seq<Descriptor>)
    requires |results| == |descriptors| && Ascending(descriptors)
    ensures InOrder(Segments(results, descriptors))
    ensures forall s :: s in Segments(results, descriptors) <==> exists i: nat :: GivesTrace(results, descriptors, i, s)
  {
    if results != [] {
      var n := |results| - 1;
      var before, segments := Segments(results[..n], descriptors[..n]), Segments(results, descriptors);
      SegmentsAreTraces(results[..n], descriptors[..n]);
      forall i: nat, s
        ensures GivesTrace(results[..n], descriptors[..n], i, s) <==> i < n && GivesTrace(results, descriptors, i, s)
      {
      }
      forall s
        ensures s in segments <==> exists i: nat :: GivesTrace(results, descriptors, i, s)
      {
        if s in before {
          var i: nat :| GivesTrace(results[..n], descriptors[..n], i, s);
          assert GivesTrace(results, descriptors, i, s);
        }
        if s in segments && s !in before { assert GivesTrace(results, descriptors, n, s); }
        if i: nat :| GivesTrace(results, descriptors, i, s) && i < n {
          assert GivesTrace(results[..n], descriptors[..n], i, s);
        }
      }
      forall k | 0 <= k < |before|
        ensures before[k].chunk < descriptors[n].chunkIndex
      {
        assert before[k] in before;
        var i: nat :| GivesTrace(results[..n], descriptors[..n], i, before[k]);
      }
    }
  }

  /** An annotation is that of the last subjob that has one under its key. */
  lemma {:induction false} AnnotationsAreLast(results: seq<Option<Result>>, key: string)
    ensures key in Annotations(results) <==> exists i: nat :: Annotates(results, i, key)
    ensures forall i: nat :: LastAnnotates(results, i, key) ==>
      key in Annotations(results) && Annotations(results)[key] == results[i].value.annotations[key]
  {
    if results != [] {
      var n := |results| - 1;
      AnnotationsAreLast(results[..n], key);
      assert forall i: nat :: Annotates(results[..n], i, key) <==> i < n && Annotates(results, i, key);
      if Annotates(results, n, key) {
        assert forall i: nat :: LastAnnotates(results, i, key) ==> i == n;
      } else {
        assert forall i: nat :: LastAnnotates(results, i, key) <==> LastAnnotates(results[..n], i, key);
      }
    }
  }

  ghost predicate LastAnnotates(results: seq<Option<Result>>, i: nat, key: string) {
    Annotates(results, i, key) && forall j: nat :: j > i ==> !Annotates(results, j, key)
  }

  ghost predicate Annotates(results: seq<Option<Result>>, i: nat, key: string) {
    i < |results| && results[i].Some? && key in results[i].value.annotations
  }

  /** Later annotations win. */
  function Annotations(results: seq<Option<Result>>): map<string, string> {
    if results == [] then map[]
    else
      var n := |results| - 1;
      Annotations(results[..n]) + if results[n].Some? then results[n].value.annotations else map[]
  }

  function CountNone(results: seq<Option<Result>>): nat {
    if results == [] then 0
    else CountNone(results[..|results| - 1]) + if results[|results| - 1].None? then 1 else 0
  }

  function JobIds(descriptors: seq<Descriptor>): seq<string> {
    seq(|descriptors|, i requires 0 <= i < |descriptors| => descriptors[i].jobId)
  }

  ghost predicate Describes(r: Response, results: seq<Option<Result>>, failed: seq<Failure>,
                            descriptors: seq<Descriptor>, parent: Parent)
    requires |results| == |descriptors|
  {
    && r.data == Flatten(DataParts(results, descriptors, parent))
    && (r.failed <==> failed != [])
    && r.subjobsFailed == CountNone(results) && r.failedSubjobs == failed
    && |r.subjobIds| == |descriptors|
    && (forall i :: 0 <= i < |descriptors| ==> r.subjobIds[i] == descriptors[i].jobId)
    && r.chunks == DoneChunks(results, descriptors)
    && r.segments == Segments(results, descriptors) && r.annotations == Annotations(results)
    && (TraceAggregation.DistinctChunks(r.segments) ==> TraceAggregation.IsParentTrace(r.segments, r.trace))
  }

  method CountMissing(results: seq<Option<Result>>) returns (count: nat)
    ensures count == CountNone(results)
  {
    count := 0;
    for n := 0 to |results|
      invariant count == CountNone(results[..n])
    {
      assert results[..n + 1][..n] == results[..n];
      if results[n].None? { count := count + 1; }
    }
    assert results[..|results|] == results;
  }

  lemma NothingYet(results: seq<Option<Result>>, descriptors: seq<Descriptor>)
    requires |results| == |descriptors|
    ensures DoneChunks(results[..0], descriptors[..0]) == [] && Segments(results[..0], descriptors[..0]) == []
    ensures Annotations(results[..0]) == map[]
  {
  }

  lemma OneMoreSlot(results: seq<Option<Result>>, descriptors: seq<Descriptor>, n: nat)
    requires n < |results| == |descriptors|
    ensures var (r, d) := (results[n], descriptors[n]);
            && DoneChunks(results[..n + 1], descriptors[..n + 1])
               == (var done := DoneChunks(results[..n], descriptors[..n]); if r.Some? then done + [d] else done)
            && Segments(results[..n + 1], descriptors[..n + 1])
               == (var done := Segments(results[..n], descriptors[..n]);
                   if r.Some? && r.value.trace != map[]
                   then done + [TraceAggregation.Segment(d.chunkIndex, r.value.trace)] else done)
            && Annotations(results[..n + 1])
               == (var done := Annotations(results[..n]); if r.Some? then done + r.value.annotations else done)
  {
    assert results[..n + 1][..n] == results[..n] && descriptors[..n + 1][..n] == descriptors[..n];
  }

  /** _build_aggregated_response; None when the times of a trace cannot be subtracted. */
  method BuildAggregatedResponse(results: seq<Option<Result>>, failed: seq<Failure>, descriptors: seq<Descriptor>,
                                 parent: Parent)
    returns (r: Option<Response>)
    requires |results| == |descriptors|
    ensures r.None? <==> TraceAggregation.MergedBroken(Segments(results, descriptors))
    ensures r.Some? ==> Describes(r.value, results, failed, descriptors, parent)
  {
    hide NormalizeAll, DoneChunks, Segments, Annotations, TraceAggregation.IsParentTrace,
         TraceAggregation.DistinctChunks,
         TraceAggregation.MergedBroken, TraceAggregation.BrokenSegments;
    NothingYet(results, descriptors);
    var count := CountMissing(results);
    var data: seq<Record>, chunks, annotations := [], [], map[];
    var segments: seq<TraceAggregation.Segment> := [];
    var parts := DataParts(results, descriptors, parent);
    for n := 0 to |results|
      invariant data == Flatten(parts[..n])
      invariant chunks == DoneChunks(results[..n], descriptors[..n])
      invariant segments == Segments(results[..n], descriptors[..n])
      invariant annotations == Annotations(results[..n])
    {
      OneMoreSlot(results, descriptors, n);
      assert parts[..n + 1] == parts[..n] + [parts[n]];
      FlattenAppend(parts[..n], parts[n]);
      if results[n].Some? {
        var result, descriptor := results[n].value, descriptors[n];
        if result.data.Data? {
          var normalized := NormalizeChunkRecords(result.data.records, descriptor.startPage, parent);
          data := data + normalized;
        }
        chunks := chunks + [descriptor];
        if result.trace != map[] {
          segments := segments + [TraceAggregation.Segment(descriptor.chunkIndex, result.trace)];
        }
        if result.annotations != map[] { annotations := annotations + result.annotations; }
      }
    }
    assert parts[..|results|] == parts && results[..|results|] == results && descriptors[..|results|] == descriptors;
    var trace := TraceAggregation.ParentTraces(segments);
    if trace.None? { return None; }
    r := Some(Response(data, failed != [], count, failed, JobIds(descriptors), chunks, segments, annotations,
                       trace.value));
  }

  ghost predicate DistinctIndices(descriptors: seq<Descriptor>) {
    forall i, j :: 0 <= i < j < |descriptors| ==> descriptors[i].chunkIndex != descriptors[j].chunkIndex
  }

  /** Subjobs with different chunk indices give segments with different chunk indices. */
  lemma {:induction false} SegmentsDistinct(results: seq<Option<Result>>, descriptors: seq<Descriptor>)
    requires |results| == |descriptors| && DistinctIndices(descriptors)
    ensures TraceAggregation.DistinctChunks(Segments(results, descriptors))
    ensures forall s :: s in Segments(results, descriptors) ==>
      exists i :: 0 <= i < |descriptors| && descriptors[i].chunkIndex == s.chunk
  {
    if results != [] {
      var n := |results| - 1;
      var before := Segments(results[..n], descriptors[..n]);
      SegmentsDistinct(results[..n], descriptors[..n]);
      forall s | s in before
        ensures exists i :: 0 <= i < n && descriptors[i].chunkIndex == s.chunk
      {
        var i :| 0 <= i < |descriptors[..n]| && descriptors[..n][i].chunkIndex == s.chunk;
        assert descriptors[i].chunkIndex == s.chunk;
      }
      assert descriptors[n].chunkIndex == descriptors[n].chunkIndex;
    }
  }

  /** So then a response cannot be built exactly when the trace of some subjob cannot be summed up on its own. */
  lemma BrokenResponse(results: seq<Option<Result>>, descriptors: seq<Descriptor>)
    requires |results| == |descriptors| && DistinctIndices(descriptors)
    ensures var segments := Segments(results, descriptors);
            TraceAggregation.MergedBroken(segments)
            <==> exists i :: 0 <= i < |segments| && TraceAggregation.OwnBroken(segments[i])
  {
    hide Segments, TraceAggregation.BrokenSegments, TraceAggregation.OwnBroken;
    var segments := Segments(results, descriptors);
    SegmentsDistinct(results, descriptors);
    TraceAggregation.BrokenSegment(segments);
    TraceAggregation.BrokenIsMerged(segments);
  }

  // --- the whole fetch of a parent job -----------------------------------------------------------------------------

  datatype Reply = Accepted202 | Error500 | Ok200(response: Response)

  /** The parent branch of fetch_job_v2, up to its response. */
  method FetchParentJob(jobs: seq<Subjob>, parent: Parent, concurrencyLevel: nat)
    returns (reply: Reply, ghost batches: seq<nat>)
    ensures forall k :: 0 <= k < |batches| ==> batches[k] <= 1 || batches[k] * 2 <= concurrencyLevel
    ensures reply.Error500? <==>
      || !AllAnswered(jobs)
      || (NonePending(jobs) && TraceAggregation.MergedBroken(Segments(Results(jobs), Descriptors(jobs))))
    ensures reply.Accepted202? <==> AllAnswered(jobs) && !NonePending(jobs)
    ensures reply.Ok200? ==>
      Describes(reply.response, Results(jobs), StateFailures(jobs) + FetchFailures(jobs), Descriptors(jobs), parent)
  {
    hide Describes, StateFailures, FetchFailures, Results, Segments, TraceAggregation.MergedBroken;
    var maxParallelOps: nat := Max(1, Min(|jobs|, concurrencyLevel / 2));
    var check;
    check, batches := CheckAllSubjobStates(jobs, maxParallelOps);
    if check.Broken? { return Error500, batches; }
    if check.Deferred? {
      ghost var i :| 0 <= i < |jobs| && Running(jobs[i]);
      assert FateOf(jobs[i]).Pending?;
      return Accepted202, batches;
    }
    ghost var more;
    var fetched;
    fetched, more := FetchAllSubjobResults(jobs, check.failed, maxParallelOps);
    batches := batches + more;
    if fetched.NotReady? {
      ghost var i :| 0 <= i < |jobs| && Fetchable(jobs[i]) && jobs[i].fetch.Timeout?;
      assert FateOf(jobs[i]).Pending?;
      return Accepted202, batches;
    }
    assert forall i :: 0 <= i < |jobs| ==> !Running(jobs[i]) && (Fetchable(jobs[i]) ==> !jobs[i].fetch.Timeout?);
    var response := BuildAggregatedResponse(fetched.results, fetched.failed, Descriptors(jobs), parent);
    if response.None? { return Error500, batches; }
    return Ok200(response.value), batches;
  }

  // --- what the response says ---------------------------------------------------------------------------------------

  function CountMissingFates(jobs: seq<Subjob>): nat {
    if jobs == [] then 0
    else CountMissingFates(jobs[..|jobs| - 1]) + if FateOf(jobs[|jobs| - 1]).Missing? then 1 else 0
  }

  lemma ResultsPrefix(jobs: seq<Subjob>)
    requires jobs != []
    ensures Results(jobs)[..|jobs| - 1] == Results(jobs[..|jobs| - 1])
    ensures Results(jobs)[|jobs| - 1] == ResultOf(jobs[|jobs| - 1])
    ensures Descriptors(jobs)[..|jobs| - 1] == Descriptors(jobs[..|jobs| - 1])
  {
  }

  /**
   Every subjob is a chunk, a failure, or one whose fetch gave nothing; so subjobs_failed is the length of
   failed_subjobs exactly when no fetch gave nothing.
   */
  lemma {:induction false} EverySubjobCounted(jobs: seq<Subjob>)
    requires AllAnswered(jobs) && NonePending(jobs)
    ensures var chunks := |DoneChunks(Results(jobs), Descriptors(jobs))|;
            var failures := |StateFailures(jobs)| + |FetchFailures(jobs)|;
            && chunks + failures + CountMissingFates(jobs) == |jobs|
            && CountNone(Results(jobs)) == failures + CountMissingFates(jobs)
  {
    hide DoneChunks, StateFailures, FetchFailures, CountNone;
    if jobs == [] { NoneCounted(); }
    if jobs != [] {
      var n := |jobs| - 1;
      EverySubjobCounted(jobs[..n]);
      LastCounted(jobs);
    }
  }

  lemma NoneCounted()
    ensures DoneChunks(Results([]), Descriptors([])) == [] && StateFailures([]) == [] && FetchFailures([]) == []
    ensures CountNone(Results([])) == 0
  {
  }

  lemma LastCounted(jobs: seq<Subjob>)
    requires jobs != [] && !FateOf(jobs[|jobs| - 1]).Pending?
    ensures var n := |jobs| - 1;
            var (before, fate) := (jobs[..n], FateOf(jobs[n]));
            && |DoneChunks(Results(jobs), Descriptors(jobs))|
               == |DoneChunks(Results(before), Descriptors(before))| + (if fate.Done? then 1 else 0)
            && CountNone(Results(jobs)) == CountNone(Results(before)) + (if fate.Done? then 0 else 1)
            && |StateFailures(jobs)| + |FetchFailures(jobs)|
               == |StateFailures(before)| + |FetchFailures(before)| + (if fate.Lost? then 1 else 0)
  {
    ResultsPrefix(jobs);
    hide Results, Descriptors;
  }

  ghost predicate Listed(failures: seq<Failure>, chunk: nat) {
    exists f :: 0 <= f < |failures| && failures[f].chunkIndex == chunk
  }

  ghost predicate Increasing(failures: seq<Failure>, bound: nat) {
    && (forall f, g :: 0 <= f < g < |failures| ==> failures[f].chunkIndex < failures[g].chunkIndex)
    && (forall f :: 0 <= f < |failures| ==> 1 <= failures[f].chunkIndex <= bound)
  }

  lemma {:induction false} StateFailuresAre(jobs: seq<Subjob>, i: nat)
    requires i < |jobs|
    ensures Increasing(StateFailures(jobs), |jobs|)
    ensures Listed(StateFailures(jobs), i + 1) <==> StateOf(jobs[i]) == Some(Failed)
  {
    hide Listed, Increasing;
    var n := |jobs| - 1;
    var before, all := StateFailures(jobs[..n]), StateFailures(jobs);
    if n > 0 { StateFailuresAre(jobs[..n], if i < n then i else 0); } else { NoneListed(i + 1); }
    ListedAppend(before, all, n, i + 1);
  }

  lemma {:induction false} FetchFailuresAre(jobs: seq<Subjob>, i: nat)
    requires i < |jobs|
    ensures Increasing(FetchFailures(jobs), |jobs|)
    ensures Listed(FetchFailures(jobs), i + 1) <==> Fetchable(jobs[i]) && jobs[i].fetch.Raised?
  {
    hide Listed, Increasing;
    var n := |jobs| - 1;
    var before, all := FetchFailures(jobs[..n]), FetchFailures(jobs);
    if n > 0 { FetchFailuresAre(jobs[..n], if i < n then i else 0); } else { NoneListed(i + 1); }
    ListedAppend(before, all, n, i + 1);
  }

  lemma NoneListed(chunk: nat)
    ensures Increasing([], 0) && !Listed([], chunk)
  {
  }

  lemma ListedAppend(before: seq<Failure>, all: seq<Failure>, n: nat, chunk: nat)
    requires Increasing(before, n)
    requires all == before || (|all| == |before| + 1 && all[..|before|] == before && all[|before|].chunkIndex == n + 1)
    ensures Increasing(all, n + 1)
    ensures Listed(all, chunk) <==> Listed(before, chunk) || (chunk == n + 1 && all != before)
    ensures chunk == n + 1 ==> !Listed(before, chunk)
  {
    if all != before {
      assert forall f :: 0 <= f < |before| ==> all[f] == before[f];
      if chunk == n + 1 { assert all[|before|].chunkIndex == chunk; }
    }
  }

  /** failed_subjobs names exactly the lost subjobs, each once; chunks holds exactly the others that gave a result. */
  lemma FailuresAreTheLost(jobs: seq<Subjob>, i: nat)
    requires i < |jobs| && AllAnswered(jobs) && NonePending(jobs)
    ensures var failures := StateFailures(jobs) + FetchFailures(jobs);
            && (Listed(failures, i + 1) <==> FateOf(jobs[i]).Lost?)
            && (forall f, g :: 0 <= f < g < |failures| ==> failures[f].chunkIndex != failures[g].chunkIndex)
  {
    hide StateFailures, FetchFailures;
    var s, t := StateFailures(jobs), FetchFailures(jobs);
    var failures := s + t;
    StateFailuresAre(jobs, i);
    FetchFailuresAre(jobs, i);
    assert !FateOf(jobs[i]).Pending?;
    ListedConcat(s, t, i + 1);
    forall f, g | 0 <= f < g < |failures|
      ensures failures[f].chunkIndex != failures[g].chunkIndex
    {
      if f < |s| <= g {
        var c: nat := s[f].chunkIndex - 1;
        StateFailuresAre(jobs, c);
        FetchFailuresAre(jobs, c);
        NotInBoth(s, t, f, g - |s|);
      }
    }
  }

  /** Each entry of failed_subjobs names the job and the error of the subjob that it counts from 1. */
  lemma FailureEntries(jobs: seq<Subjob>, f: nat)
    requires f < |StateFailures(jobs) + FetchFailures(jobs)|
    ensures var failures: seq<Failure> := StateFailures(jobs) + FetchFailures(jobs);
            var (entry, i) := (failures[f], failures[f].chunkIndex - 1);
            && 0 <= i < |jobs| && entry.jobId == jobs[i].descriptor.jobId
            && (entry.error.None? <==> jobs[i].state == Value(Some(Failed)))
            && (entry.error.Some? ==> jobs[i].fetch == Raised(entry.error.value))
  {
    var s := StateFailures(jobs);
    if f < |s| { StateEntries(jobs, f); } else { FetchEntries(jobs, f - |s|); }
  }

  lemma {:induction false} StateEntries(jobs: seq<Subjob>, f: nat)
    requires f < |StateFailures(jobs)|
    ensures var entry := StateFailures(jobs)[f];
            && 1 <= entry.chunkIndex <= |jobs| && entry.error.None?
            && entry.jobId == jobs[entry.chunkIndex - 1].descriptor.jobId
            && jobs[entry.chunkIndex - 1].state == Value(Some(Failed))
  {
    var before := jobs[..|jobs| - 1];
    if f < |StateFailures(before)| { StateEntries(before, f); }
  }

  lemma {:induction false} FetchEntries(jobs: seq<Subjob>, f: nat)
    requires f < |FetchFailures(jobs)|
    ensures var entry := FetchFailures(jobs)[f];
            && 1 <= entry.chunkIndex <= |jobs| && entry.error.Some?
            && entry.jobId == jobs[entry.chunkIndex - 1].descriptor.jobId
            && jobs[entry.chunkIndex - 1].fetch == Raised(entry.error.value)
            && jobs[entry.chunkIndex - 1].state != Value(Some(Failed))
  {
    var before := jobs[..|jobs| - 1];
    if f < |FetchFailures(before)| { FetchEntries(before, f); }
  }

  lemma NotInBoth(a: seq<Failure>, b: seq<Failure>, f: nat, g: nat)
    requires f < |a| && g < |b| && !(Listed(a, a[f].chunkIndex) && Listed(b, a[f].chunkIndex))
    ensures a[f].chunkIndex != b[g].chunkIndex
  {
  }

  lemma ListedConcat(a: seq<Failure>, b: seq<Failure>, chunk: nat)
    ensures Listed(a + b, chunk) <==> Listed(a, chunk) || Listed(b, chunk)
  {
    if Listed(a, chunk) {
      var f :| 0 <= f < |a| && a[f].chunkIndex == chunk;
      assert (a + b)[f].chunkIndex == chunk;
    }
    if Listed(b, chunk) {
      var f :| 0 <= f < |b| && b[f].chunkIndex == chunk;
      assert (a + b)[|a| + f].chunkIndex == chunk;
    }
  }

  /** The status is "failed" for every response with a gap exactly when some subjob is lost or none came back empty. */
  lemma {:induction false} StatusShowsGaps(jobs: seq<Subjob>)
    requires AllAnswered(jobs) && NonePending(jobs)
    ensures (StateFailures(jobs) + FetchFailures(jobs) != [] <==> CountNone(Results(jobs)) > 0)
            <==> CountMissingFates(jobs) == 0 || exists i :: 0 <= i < |jobs| && FateOf(jobs[i]).Lost?
  {
    EverySubjobCounted(jobs);
    var failures := StateFailures(jobs) + FetchFailures(jobs);
    if failures != [] && CountMissingFates(jobs) > 0 {
      FailureIsLost(jobs, 0);
    }
    if i :| 0 <= i < |jobs| && FateOf(jobs[i]).Lost? {
      FailuresAreTheLost(jobs, i);
    }
  }

  lemma FailureIsLost(jobs: seq<Subjob>, f: nat)
    requires jobs != [] && AllAnswered(jobs) && NonePending(jobs)
    requires f < |StateFailures(jobs) + FetchFailures(jobs)|
    ensures var failures: seq<Failure> := StateFailures(jobs) + FetchFailures(jobs);
            var c := failures[f].chunkIndex;
            1 <= c <= |jobs| && FateOf(jobs[c - 1]).Lost?
  {
    hide StateFailures, FetchFailures, FateOf;
    var s, t := StateFailures(jobs), FetchFailures(jobs);
    StateFailuresAre(jobs, 0);
    FetchFailuresAre(jobs, 0);
    var failures: seq<Failure> := s + t;
    var c := failures[f].chunkIndex;
    assert failures[f] == if f < |s| then s[f] else t[f - |s|];
    assert Listed(failures, c);
    FailuresAreTheLost(jobs, c - 1);
  }

  /** The subjobs of a split document, all of them successful, with what extraction of each chunk gave. */
  ghost predicate SplitRun(jobs: seq<Subjob>, results: seq<seq<Record>>, chunks: seq<Chunk<PageContent>>,
                           carried: Carried) {
    && |jobs| == |results| == |chunks|
    && forall c: nat :: c < |jobs| ==> ChunkFetched(jobs[c], results[c], chunks[c], carried)
  }

  ghost predicate ChunkFetched(job: Subjob, records: seq<Record>, chunk: Chunk<PageContent>, carried: Carried) {
    && job.descriptor.startPage == CarriedBy(carried, chunk)
    && FateOf(job).Done? && FateOf(job).result.data == Data(Some(records))
  }

  lemma SplitRunData(jobs: seq<Subjob>, results: seq<seq<Record>>, pages: seq<PageContent>, size: nat, carried: Carried,
                     parent: Parent)
    requires size >= 1 && SplitRun(jobs, results, Chunks(pages, size), carried)
    ensures DataParts(Results(jobs), Descriptors(jobs), parent) == Normalized(results, pages, size, carried, parent)
  {
    hide Chunks, NormalizeAll, CarriedBy, FateOf;
    var data := DataParts(Results(jobs), Descriptors(jobs), parent);
    var normalized := Normalized(results, pages, size, carried, parent);
    forall c: nat | c < |jobs|
      ensures data[c] == normalized[c]
    {
      assert ChunkFetched(jobs[c], results[c], Chunks(pages, size)[c], carried);
    }
  }

  /**
   Split, extract each chunk, aggregate: with start pages carried, data holds the records of the whole document exactly
   when the text is taken page by page or there is one chunk, and all chunks say the same of the document as the whole
   does; without tables and charts it is then the same list.
   */
  lemma SplitAggregateIsWhole(jobs: seq<Subjob>, results: seq<seq<Record>>, pages: seq<PageContent>, size: nat,
                              depth: Depth, base: nat, parts: nat -> Reading, parent: Parent, whole: Reading,
                              records: seq<Record>)
    requires size >= 1 && ChunksExtracted(results, pages, size, depth, base, parts)
    requires IsExtraction(records, pages, depth, 0, base, LabelOf(whole))
    requires SplitRun(jobs, results, Chunks(pages, size), StartPage)
    ensures var data := Flatten(DataParts(Results(jobs), Descriptors(jobs), parent));
            var same := TextOnce(depth, |pages|, size)
                        && ChunksAlike(pages, size, depth, parts, parent, LabelOf(whole));
            && (multiset(data) == multiset(records) <==> same)
            && (NothingDeferred(pages) ==> (data == records <==> same))
  {
    hide DataParts, Results, Descriptors, Normalized, ChunksExtracted, IsExtraction, SplitRun, NothingDeferred,
         TextOnce, ChunksAlike, LabelOf;
    SplitRunData(jobs, results, pages, size, StartPage, parent);
    SplitHoldsSameRecords(results, pages, size, depth, base, parts, parent, whole, records);
    if NothingDeferred(pages) { SplitIsSameSequence(results, pages, size, depth, base, parts, parent, whole, records); }
  }

  /** As shipped, without start pages, it does so exactly when besides no page after the first chunk is numbered. */
  lemma ShippedAggregateIsWhole(jobs: seq<Subjob>, results: seq<seq<Record>>, pages: seq<PageContent>, size: nat,
                                depth: Depth, base: nat, parts: nat -> Reading, parent: Parent, whole: Reading,
                                records: seq<Record>)
    requires size >= 1 && ChunksExtracted(results, pages, size, depth, base, parts)
    requires IsExtraction(records, pages, depth, 0, base, LabelOf(whole))
    requires SplitRun(jobs, results, Chunks(pages, size), Nothing)
    ensures var data := Flatten(DataParts(Results(jobs), Descriptors(jobs), parent));
            multiset(data) == multiset(records)
            <==> TextOnce(depth, |pages|, size) && ChunksAlike(pages, size, depth, parts, parent, LabelOf(whole))
                 && Unnumbered(Direct(pages)[Min(size, |pages|)..])
                 && Unnumbered(DocumentExtraction.Deferred(pages)[Min(size, |pages|)..])
  {
    hide DataParts, Results, Descriptors, Normalized, ChunksExtracted, IsExtraction, SplitRun, TextOnce, Unnumbered,
         Direct, DocumentExtraction.Deferred, ChunksAlike, LabelOf;
    SplitRunData(jobs, results, pages, size, Nothing, parent);
    ShippedHoldsSameRecords(results, pages, size, depth, base, parts, parent, whole, records);
  }
}
